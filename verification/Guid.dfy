/** GUIDs as two Java longs, their parser and their printer. A long is an integer
    of 64 bits in two's complement: left shifts wrap, right shifts keep the sign. */
module Guid {
  import opened Bits
  import opened GuidText

  datatype Option<T> = None | Some(value: T)
  datatype GUID = GUID(v0: int, v1: int)

  ghost predicate IsLong(x: int) {
    -(Pow2(63) as int) <= x < Pow2(63)
  }

  /** What a long keeps of an integer. */
  function ToLong(x: int): int {
    SignedWord(64, x)
  }

  // ---------------------------------------------------------------- digits

  function HexDigit(n: nat): char
    requires n < 16
  {
    (if n < 10 then '0' as int + n else 'A' as int + n - 10) as char
  }

  const DIGITS := "0123456789ABCDEF"

  /** The table of the source holds the digits. */
  lemma DigitTable(n: nat)
    requires n < 16
    ensures DIGITS[n] == HexDigit(n)
  {
    assert '0' as int == 48 && 'A' as int == 65;
  }

  function Upper(c: char): char {
    if 'a' <= c <= 'f' then (c as int - 'a' as int + 'A' as int) as char else c
  }

  /** The value of a hexadecimal digit in either case. */
  function HexVal(c: char): (r: Option<nat>)
    ensures r.Some? ==> r.value < 16 && HexDigit(r.value) == Upper(c)
  {
    var u := Upper(c);
    if '0' <= u <= '9' then Some(u as int - '0' as int)
    else if 'A' <= u <= 'F' then Some(u as int - 'A' as int + 10)
    else None
  }

  lemma ValOfDigit(n: nat)
    requires n < 16
    ensures HexVal(HexDigit(n)) == Some(n)
    ensures HexDigit(n) != '-' && HexDigit(n) != '+'
  {}

  function UpperCase(s: string): (u: string)
    ensures |u| == |s|
  {
    seq(|s|, i requires 0 <= i < |s| => Upper(s[i]))
  }

  predicate AllHex(s: string) {
    forall i | 0 <= i < |s| :: HexVal(s[i]).Some?
  }

  // ---------------------------------------------------------------- fields

  /** `Long.parseLong(s, 16)` on digits only. */
  function Digits(s: string): Option<nat>
    requires s != ""
  {
    var last := HexVal(s[|s| - 1]);
    if |s| == 1 then last
    else match (Digits(s[..|s| - 1]), last)
      case (Some(v), Some(d)) => Some(v * 16 + d)
      case _ => None
  }

  /** `Long.parseLong(s, 16)`, which also takes a sign. */
  function ParseLong(s: string): Option<int> {
    if |s| == 0 then None
    else if s[0] == '-' || s[0] == '+' then
      if |s| == 1 then None
      else match Digits(s[1..])
        case Some(v) => Some(if s[0] == '-' then -(v as int) else v)
        case None => None
    else match Digits(s)
      case Some(v) => Some(v)
      case None => None
  }

  /** The last `len` hexadecimal digits of a number, most significant first. */
  function Hex(n: int, len: nat): (s: string)
    ensures |s| == len
    decreases len
  {
    if len == 0 then "" else Hex(n / 16, len - 1) + [HexDigit(n % 16)]
  }

  /** `toHex`, which goes through the digits from the top. */
  method ToHex(buf: string, n: int, len: nat) returns (r: string)
    ensures r == buf + Hex(n, len)
  {
    r := buf;
    ghost var rest: int := len;
    var i: int := len - 1;
    assert buf + Hex(Shr(n, 4 * len), 0) == buf;
    while i >= 0
      invariant -1 <= i < len
      invariant r == buf + Hex(Shr(n, 4 * (i + 1)), len - 1 - i)
    {
      NextDigit(n, i);
      LowNibble(Shr(n, 4 * i));
      DigitTable(And(0xF, Shr(n, 4 * i)));
      r := r + [DIGITS[And(0xF, Shr(n, 4 * i))]];
      i := i - 1;
    }
  }

  lemma {:induction false} NextDigit(n: int, i: nat)
    ensures Shr(n, 4 * (i + 1)) == Shr(n, 4 * i) / 16
    decreases i
  {
    ShrTwice(n, 4 * i, 4);
  }

  lemma {:induction false} ShrTwice(n: int, j: nat, k: nat)
    ensures Shr(n, j + k) == Shr(Shr(n, j), k)
    decreases j
  {
    if j > 0 {
      ShrTwice(n / 2, j - 1, k);
    }
  }

  lemma LowNibble(n: int)
    ensures And(0xF, n) == n % 16
  {
    assert Pow2(4) == 16;
    AndMask(n, 4);
    ToWordIsRemainder(4, n);
  }

  // ---------------------------------------------------------------- one field, both ways

  lemma {:induction false} DigitsBound(s: string)
    requires s != "" && Digits(s).Some?
    ensures Digits(s).value < Pow2(4 * |s|)
  {
    if |s| > 1 {
      DigitsBound(s[..|s| - 1]);
      FourBits(|s| - 1);
    } else {
      assert Pow2(4) == 16;
    }
  }

  lemma FourBits(k: nat)
    ensures Pow2(4 * (k + 1)) == 16 * Pow2(4 * k)
  {
    assert Pow2(4 * k + 2) == 2 * Pow2(4 * k + 1) == 4 * Pow2(4 * k);
    assert Pow2(4 * k + 4) == 2 * Pow2(4 * k + 3) == 4 * Pow2(4 * k + 2);
  }

  lemma {:induction false} DigitsIffHex(s: string)
    requires s != ""
    ensures Digits(s).Some? <==> AllHex(s)
  {
    if |s| > 1 {
      DigitsIffHex(s[..|s| - 1]);
    }
  }

  /** Printing a parsed field gives it in upper case. */
  lemma {:induction false} HexOfDigits(s: string)
    requires s != "" && Digits(s).Some?
    ensures Hex(Digits(s).value, |s|) == UpperCase(s)
  {
    var front, last := s[..|s| - 1], HexVal(s[|s| - 1]).value;
    assert UpperCase(s) == UpperCase(front) + [HexDigit(last)];
    if |s| > 1 {
      HexOfDigits(front);
      assert Digits(s).value / 16 == Digits(front).value && Digits(s).value % 16 == last;
    } else {
      assert Hex(last, 1) == Hex(last / 16, 0) + [HexDigit(last % 16)];
    }
  }

  /** The number the last `len` hexadecimal digits stand for. */
  function Low(n: int, len: nat): nat
    decreases len
  {
    if len == 0 then 0 else 16 * Low(n / 16, len - 1) + n % 16
  }

  lemma {:induction false} LowIsWord(n: int, len: nat)
    ensures Low(n, len) == ToWord(4 * len, n)
    decreases len
  {
    if len > 0 {
      LowIsWord(n / 16, len - 1);
      WordOfNibbles(n, len - 1);
    }
  }

  /** Parsing a printed field gives the bits that were printed. */
  lemma {:induction false} DigitsOfHex(n: int, len: nat)
    requires len > 0
    ensures Digits(Hex(n, len)) == Some(Low(n, len))
    decreases len
  {
    if len > 1 {
      DigitsOfHex(n / 16, len - 1);
    }
    DigitsAppend(Hex(n / 16, len - 1), n % 16);
  }

  lemma DigitsAppend(front: string, d: nat)
    requires d < 16 && (front == "" || Digits(front).Some?)
    ensures Digits(front + [HexDigit(d)]) == Some(if front == "" then d else Digits(front).value * 16 + d)
  {
    ValOfDigit(d);
    var c := HexDigit(d);
    var s := front + [c];
    assert |s| == |front| + 1 && s[|front|] == c && s[..|front|] == front;
    AppendedDigit(s, c, d);
  }

  lemma AppendedDigit(s: string, c: char, d: nat)
    requires s != "" && s[|s| - 1] == c && HexVal(c) == Some(d)
    requires |s| == 1 || Digits(s[..|s| - 1]).Some?
    ensures Digits(s) == Some(if |s| == 1 then d else Digits(s[..|s| - 1]).value * 16 + d)
  {}

  lemma {:induction false} HexStartsWithDigit(n: int, len: nat)
    requires len > 0
    ensures Hex(n, len)[0] != '-' && Hex(n, len)[0] != '+'
    decreases len
  {
    if len > 1 {
      HexStartsWithDigit(n / 16, len - 1);
    } else {
      ValOfDigit(n % 16);
    }
  }

  lemma FourShifts(x: int)
    ensures Shr(x, 4) == x / 16 && Shl(x, 4) == 16 * x
  {
    TwoShifts(x);
    TwoShifts(x / 4);
    ShrTwice(x, 2, 2);
    assert Shl(x, 4) == 2 * Shl(x, 3) == 4 * Shl(x, 2);
  }

  lemma TwoShifts(x: int)
    ensures Shr(x, 2) == x / 4 && Shl(x, 2) == 4 * x
  {
    assert Shr(x, 2) == Shr(x / 2, 1);
    assert Shr(x / 2, 1) == Shr(x / 2 / 2, 0);
    assert Shl(x, 2) == 2 * Shl(x, 1);
    assert Shl(x, 1) == 2 * Shl(x, 0);
  }

  lemma WordOfNibbles(n: int, k: nat)
    ensures ToWord(4 * (k + 1), n) == 16 * ToWord(4 * k, n / 16) + n % 16
  {
    WordAndField(n, 4, 4 * k);
    ToWordIsRemainder(4, n);
    assert Pow2(4) == 16;
    FourShifts(n);
    FourShifts(ToWord(4 * k, n / 16));
  }

  /** Only the printed bits matter. */
  lemma {:induction false} HexOfLow(n: int, len: nat)
    ensures Hex(Low(n, len), len) == Hex(n, len)
    decreases len
  {
    if len > 0 {
      HexOfLow(n / 16, len - 1);
    }
  }

  // ---------------------------------------------------------------- longs out of fields

  /** The bit a field starts at. */
  function Bit(ls: seq<Slice>, j: nat): nat
    requires j <= |ls|
  {
    if j == 0 then 0 else Bit(ls, j - 1) + 4 * ls[j - 1].len
  }

  lemma {:induction false} BitsGrow(ls: seq<Slice>, i: nat, j: nat)
    requires i <= j <= |ls|
    ensures Bit(ls, i) <= Bit(ls, j)
    decreases j
  {
    if i < j {
      BitsGrow(ls, i, j - 1);
    }
  }

  /** The first `n` fields or-ed together, each shifted to its place. */
  function Join(fs: seq<int>, ls: seq<Slice>, n: nat): int
    requires 0 < n <= |fs| == |ls|
  {
    if n == 1 then fs[0] else Or(Join(fs, ls, n - 1), ToLong(Shl(fs[n - 1], Bit(ls, n - 1))))
  }

  /** The layout fills a long. */
  ghost predicate Fills(ls: seq<Slice>) {
    |ls| > 1 && Bit(ls, |ls|) == 64 && forall j | 0 <= j < |ls| :: ls[j].len > 0
  }

  /** Field `n` goes on top of what is below it, without wrapping unless it is the last one. */
  lemma AddField(acc: nat, f: nat, k: nat, m: nat)
    requires m > 0 && k + m <= 64 && acc < Pow2(k) && f < Pow2(m)
    ensures k + m < 64 ==> Or(acc, ToLong(Shl(f, k))) == acc + Shl(f, k)
    ensures k + m == 64 ==> Or(acc, ToLong(Shl(f, k))) == acc + Shl(SignedWord(m, f), k)
  {
    if k + m == 64 {
      SignedOfShl(f, k, m);
      OrDisjoint(acc, SignedWord(m, f), k);
    } else {
      ShlBound(f, k, m);
      if k + m < 63 {
        Pow2Monotone(k + m, 63);
      }
      SignedInRange(64, Shl(f, k));
      OrDisjoint(acc, f, k);
    }
  }

  lemma ShlBound(f: nat, k: nat, m: nat)
    requires f < Pow2(m)
    ensures 0 <= Shl(f, k) < Pow2(k + m)
  {
    ShlMonotone(f, Pow2(m), k);
    ShlOfPow2(m, k);
    ShlOfZero(k);
    if f > 0 {
      ShlMonotone(0, f, k);
    }
  }

  lemma FieldWithin(ls: seq<Slice>, j: nat)
    requires Fills(ls) && j < |ls|
    ensures ls[j].len > 0 && Bit(ls, j) + 4 * ls[j].len == Bit(ls, j + 1) <= 64
    ensures Bit(ls, j + 1) < 64 <==> j + 1 < |ls|
  {
    BitsGrow(ls, j + 1, |ls|);
    if j + 1 < |ls| {
      BitsGrow(ls, j + 2, |ls|);
    }
  }

  lemma AddNextField(v: int, k: nat, m: nat)
    requires m > 0 && k + m < 64
    ensures Or(ToWord(k, v), ToLong(Shl(Field(v, k, m), k))) == ToWord(k + m, v)
  {
    WordBound(k, v);
    WordBound(m, Shr(v, k));
    AddField(ToWord(k, v), Field(v, k, m), k, m);
    WordAndField(v, k, m);
  }

  lemma AddLastField(v: int, k: nat, m: nat)
    requires IsLong(v) && m > 0 && k + m == 64
    ensures Or(ToWord(k, v), ToLong(Shl(Field(v, k, m), k))) == v
  {
    WordBound(k, v);
    WordBound(m, Shr(v, k));
    AddField(ToWord(k, v), Field(v, k, m), k, m);
    TopFieldIsSigned(v, k, m);
    SumOfParts(v, k);
  }

  lemma TopFieldIsSigned(v: int, k: nat, m: nat)
    requires IsLong(v) && m > 0 && k + m == 64
    ensures SignedWord(m, Field(v, k, m)) == Shr(v, k)
  {
    ShrBound(v, k, m - 1);
    SignedInRange(m, Shr(v, k));
    Truncated(m, Shr(v, k));
  }

  ghost predicate FieldsOf(fs: seq<int>, v: int, ls: seq<Slice>) {
    |fs| == |ls| && forall j | 0 <= j < |ls| :: fs[j] == Field(v, Bit(ls, j), 4 * ls[j].len)
  }

  /** Or-ing together the fields of a long gives its low bits ... */
  lemma {:induction false} JoinOfFields(v: int, fs: seq<int>, ls: seq<Slice>, n: nat)
    requires Fills(ls) && 0 < n < |ls| && FieldsOf(fs, v, ls)
    ensures Join(fs, ls, n) == ToWord(Bit(ls, n), v)
  {
    FieldWithin(ls, n - 1);
    if n > 1 {
      JoinOfFields(v, fs, ls, n - 1);
      AddNextField(v, Bit(ls, n - 1), 4 * ls[n - 1].len);
    } else {
      assert Bit(ls, 0) == 0 && fs[0] == Field(v, 0, 4 * ls[0].len);
    }
  }

  /** ... and the long itself, sign included, with the last one. */
  lemma {:induction false} JoinRebuilds(v: int, fs: seq<int>, ls: seq<Slice>)
    requires IsLong(v) && Fills(ls) && FieldsOf(fs, v, ls)
    ensures Join(fs, ls, |ls|) == v
  {
    var n := |ls| - 1;
    FieldWithin(ls, n);
    JoinOfFields(v, fs, ls, n);
    AddLastField(v, Bit(ls, n), 4 * ls[n].len);
  }

  /** Fields in range go in unchanged and stay where they are put. */
  ghost predicate InRange(fs: seq<int>, ls: seq<Slice>) {
    |fs| == |ls| && forall j | 0 <= j < |ls| :: 0 <= fs[j] < Pow2(4 * ls[j].len)
  }

  lemma {:induction false} JoinBelow(fs: seq<int>, ls: seq<Slice>, n: nat)
    requires Fills(ls) && InRange(fs, ls) && 0 < n < |ls|
    ensures 0 <= Join(fs, ls, n) < Pow2(Bit(ls, n))
    ensures n > 1 ==> Join(fs, ls, n) == Join(fs, ls, n - 1) + Shl(fs[n - 1], Bit(ls, n - 1))
  {
    FieldWithin(ls, n - 1);
    var k, m := Bit(ls, n - 1), 4 * ls[n - 1].len;
    if n > 1 {
      JoinBelow(fs, ls, n - 1);
      JoinNext(Join(fs, ls, n - 1), fs[n - 1], k, m);
    } else {
      assert Bit(ls, 0) == 0 && Bit(ls, 1) == m;
    }
  }

  lemma JoinNext(a: nat, f: nat, k: nat, m: nat)
    requires m > 0 && k + m < 64 && a < Pow2(k) && f < Pow2(m)
    ensures Or(a, ToLong(Shl(f, k))) == a + Shl(f, k) && 0 <= a + Shl(f, k) < Pow2(k + m)
  {
    AddField(a, f, k, m);
    SumBound(a, f, k, m);
  }

  lemma SumBound(a: nat, f: nat, k: nat, m: nat)
    requires a < Pow2(k) && f < Pow2(m)
    ensures 0 <= a + Shl(f, k) < Pow2(k + m)
  {
    ShlBound(f, k, m);
    ShlOfPow2(m, k);
    ShlOfPow2(0, k);
    ShlSum(f, 1, k);
    if f + 1 < Pow2(m) {
      ShlMonotone(f + 1, Pow2(m), k);
    }
  }

  /** The joined long, with the sign that the last field gives it. */
  lemma {:induction false} JoinWhole(fs: seq<int>, ls: seq<Slice>)
    requires Fills(ls) && InRange(fs, ls)
    ensures var n := |ls| - 1;
            && 0 <= Join(fs, ls, n) < Pow2(Bit(ls, n)) && ls[n].len > 0
            && Join(fs, ls, |ls|) == Join(fs, ls, n) + Shl(SignedWord(4 * ls[n].len, fs[n]), Bit(ls, n))
    ensures IsLong(Join(fs, ls, |ls|))
  {
    var n := |ls| - 1;
    FieldWithin(ls, n);
    JoinBelow(fs, ls, n);
    AddField(Join(fs, ls, n), fs[n], Bit(ls, n), 4 * ls[n].len);
    SignedBound(4 * ls[n].len, fs[n]);
    SignedSumBound(Join(fs, ls, n), SignedWord(4 * ls[n].len, fs[n]), Bit(ls, n), 4 * ls[n].len - 1);
  }

  lemma SignedSumBound(a: nat, q: int, k: nat, j: nat)
    requires a < Pow2(k) && -(Pow2(j) as int) <= q < Pow2(j) && k + j == 63
    ensures IsLong(a + Shl(q, k))
  {
    if q >= 0 {
      SumBound(a, q, k, j);
    } else {
      SumBound(a, q + Pow2(j), k, j);
      ShlSum(q, Pow2(j), k);
      ShlOfPow2(j, k);
    }
  }

  /** What is below bit `Bit(ls, n)` of the joined long. */
  lemma {:induction false} LowPart(fs: seq<int>, ls: seq<Slice>, n: nat)
    requires Fills(ls) && InRange(fs, ls) && 0 < n < |ls|
    ensures ToWord(Bit(ls, n), Join(fs, ls, |ls|)) == Join(fs, ls, n)
    decreases |ls| - n
  {
    var v := Join(fs, ls, |ls|);
    JoinBelow(fs, ls, n);
    if n == |ls| - 1 {
      JoinWhole(fs, ls);
      PartsOfSum(Join(fs, ls, n), SignedWord(4 * ls[n].len, fs[n]), Bit(ls, n));
    } else {
      LowPart(fs, ls, n + 1);
      JoinBelow(fs, ls, n + 1);
      LowerPart(Join(fs, ls, n), fs[n], Bit(ls, n), Bit(ls, n + 1), v);
    }
  }

  lemma LowerPart(a: nat, f: int, j: nat, k: nat, v: int)
    requires a < Pow2(j) && j <= k && ToWord(k, v) == a + Shl(f, j)
    ensures ToWord(j, v) == a
  {
    PartsOfSum(a, f, j);
    LowerBits(j, k, v);
  }

  lemma JoinSplits(fs: seq<int>, ls: seq<Slice>, j: nat)
    requires Fills(ls) && InRange(fs, ls) && j < |ls|
    ensures Field(Join(fs, ls, |ls|), Bit(ls, j), 4 * ls[j].len) == fs[j]
  {
    var v, k, m := Join(fs, ls, |ls|), Bit(ls, j), 4 * ls[j].len;
    if j == |ls| - 1 {
      JoinWhole(fs, ls);
      TopPart(Join(fs, ls, j), fs[j], k, m, v);
    } else {
      LowPart(fs, ls, j + 1);
      if j > 0 {
        JoinBelow(fs, ls, j);
        JoinBelow(fs, ls, j + 1);
        MiddlePart(Join(fs, ls, j), fs[j], k, m, v);
      } else {
        WordAndField(v, 0, m);
      }
    }
  }

  lemma TopPart(a: nat, f: nat, k: nat, m: nat, v: int)
    requires m > 0 && a < Pow2(k) && f < Pow2(m) && v == a + Shl(SignedWord(m, f), k)
    ensures Field(v, k, m) == f
  {
    PartsOfSum(a, SignedWord(m, f), k);
    SignedBound(m, f);
    FitsWord(m, f);
  }

  lemma MiddlePart(a: nat, f: nat, k: nat, m: nat, v: int)
    requires a < Pow2(k) && ToWord(k + m, v) == a + Shl(f, k)
    ensures Field(v, k, m) == f
  {
    WordAndField(v, k, m);
    PartsOfSum(a, f, k);
  }

  // ---------------------------------------------------------------- parsing and printing

  /** The fields of a text, if every one of them is a number. */
  function ParseFields(s: string, ls: seq<Slice>, n: nat): (r: Option<seq<int>>)
    requires n <= |ls| && SlicesIn(s, ls)
    ensures r.Some? ==> |r.value| == n
  {
    if n == 0 then Some([])
    else match (ParseFields(s, ls, n - 1), ParseLong(Part(s, ls[n - 1])))
      case (Some(fs), Some(f)) => Some(fs + [f])
      case _ => None
  }

  function Braced(s: string): string {
    if |s| == 36 then "{" + s + "}" else s
  }

  /** The constructor from a string; None is the exception. Braces and dashes
      are not looked at, and a field may start with a sign. */
  function Parse(str: string): Option<GUID> {
    var s := Braced(str);
    if |s| != 38 then None
    else match (ParseFields(s, LOW, 3), ParseFields(s, HIGH, 8))
      case (Some(lo), Some(hi)) => Some(GUID(Join(lo, LOW, 3), Join(hi, HIGH, 8)))
      case _ => None
  }

  /** The mask of field `j`: the last one takes everything up to the sign. */
  function Mask(ls: seq<Slice>, j: nat): int
    requires j < |ls|
  {
    Shl(if j == |ls| - 1 then -1 else Pow2(4 * ls[j].len) - 1, Bit(ls, j))
  }

  /** A field as `toString` prints it: masked, shifted down, in hexadecimal. */
  function Printed(v: int, ls: seq<Slice>, j: nat): (s: string)
    requires j < |ls|
    ensures |s| == ls[j].len
  {
    Hex(Shr(And(v, Mask(ls, j)), Bit(ls, j)), ls[j].len)
  }

  /** All fields of a long as they are printed. */
  function PrintedFields(v: int, ls: seq<Slice>): (ps: seq<string>)
    ensures |ps| == |ls| && forall j | 0 <= j < |ls| :: ps[j] == Printed(v, ls, j)
  {
    seq(|ls|, j requires 0 <= j < |ls| => Printed(v, ls, j))
  }

  /** The printed form. */
  function Text(g: GUID): string {
    TextOf(PrintedFields(g.v0, LOW), PrintedFields(g.v1, HIGH))
  }

  /** One call of `toHex` in `toString`. */
  method Append(buf: string, v: int, ls: seq<Slice>, j: nat, ghost ps: seq<string>, ghost i: nat, ghost start: string)
    returns (r: string)
    requires ps == PrintedFields(v, ls) && i <= j < |ls| && buf == start + Run(ps, i, j)
    ensures r == start + Run(ps, i, j + 1)
  {
    r := ToHex(buf, Shr(And(v, Mask(ls, j)), Bit(ls, j)), ls[j].len);
    assert r == buf + ps[j];
    assert start + (Run(ps, i, j) + ps[j]) == (start + Run(ps, i, j)) + ps[j];
  }

  method AppendOne(buf: string, v: int, ls: seq<Slice>, j: nat, ghost ps: seq<string>) returns (r: string)
    requires ps == PrintedFields(v, ls) && j < |ls|
    ensures r == buf + ps[j]
  {
    r := ToHex(buf, Shr(And(v, Mask(ls, j)), Bit(ls, j)), ls[j].len);
  }

  method ToString(g: GUID) returns (buf: string)
    ensures buf == Text(g)
  {
    ghost var lo, hi := PrintedFields(g.v0, LOW), PrintedFields(g.v1, HIGH);
    buf := "{";
    buf := AppendOne(buf, g.v0, LOW, 0, lo);
    buf := buf + "-";
    buf := AppendOne(buf, g.v0, LOW, 1, lo);
    buf := buf + "-";
    buf := AppendOne(buf, g.v0, LOW, 2, lo);
    buf := buf + "-";
    buf := ToStringHigh(buf, g.v1, hi);
  }

  method ToStringHigh(head: string, v: int, ghost hi: seq<string>) returns (buf: string)
    requires hi == PrintedFields(v, HIGH)
    ensures buf == head + Run(hi, 0, 2) + "-" + Run(hi, 2, 8) + "}"
  {
    buf := head;
    buf := Append(buf, v, HIGH, 0, hi, 0, head);
    buf := Append(buf, v, HIGH, 1, hi, 0, head);
    buf := buf + "-";
    ghost var start := buf;
    buf := Append(buf, v, HIGH, 2, hi, 2, start);
    buf := Append(buf, v, HIGH, 3, hi, 2, start);
    buf := Append(buf, v, HIGH, 4, hi, 2, start);
    buf := Append(buf, v, HIGH, 5, hi, 2, start);
    buf := Append(buf, v, HIGH, 6, hi, 2, start);
    buf := Append(buf, v, HIGH, 7, hi, 2, start);
    buf := buf + "}";
  }

  // ---------------------------------------------------------------- the layouts

  lemma LayoutsFill()
    ensures Fills(LOW) && Fills(HIGH)
  {
    assert Bit(LOW, 1) == 32 && Bit(LOW, 2) == 48 && Bit(LOW, 3) == 64;
    BytesOfHigh(8);
  }

  lemma {:induction false} BytesOfHigh(j: nat)
    requires j <= 8
    ensures Bit(HIGH, j) == 8 * j
  {
    if j > 0 {
      BytesOfHigh(j - 1);
    }
  }

  lemma PowersOfTwo()
    ensures Pow2(8) == 0x100 && Pow2(16) == 0x1_0000 && Pow2(24) == 0x100_0000 && Pow2(32) == 0x1_0000_0000
    ensures Pow2(40) == 0x100_0000_0000 && Pow2(48) == 0x1_0000_0000_0000 && Pow2(56) == 0x100_0000_0000_0000
  {
    assert Pow2(8) == 0x100;
    assert Pow2(16) == 0x1_0000;
    assert Pow2(24) == 0x100_0000;
    assert Pow2(32) == 0x1_0000_0000;
    assert Pow2(40) == 0x100_0000_0000;
    assert Pow2(48) == 0x1_0000_0000_0000;
  }

  lemma MaskAsWritten(ls: seq<Slice>, j: nat, mask: int)
    requires j < |ls|
    requires mask == (if j == |ls| - 1 then -1 else Pow2(4 * ls[j].len) - 1) * Pow2(Bit(ls, j))
    ensures Mask(ls, j) == mask
  {
    ShlIsProduct(if j == |ls| - 1 then -1 else Pow2(4 * ls[j].len) - 1, Bit(ls, j));
  }

  /** The masks are the constants of the source; the two with the sign bit are negative. */
  lemma MasksAsWritten()
    ensures Mask(LOW, 0) == 0x0000_0000_FFFF_FFFF && Mask(LOW, 1) == 0x0000_FFFF_0000_0000
    ensures Mask(LOW, 2) == 0xFFFF_0000_0000_0000 - 0x1_0000_0000_0000_0000
    ensures Mask(HIGH, 0) == 0xFF && Mask(HIGH, 1) == 0xFF00
    ensures Mask(HIGH, 2) == 0xFF_0000 && Mask(HIGH, 3) == 0xFF00_0000
    ensures Mask(HIGH, 4) == 0xFF_0000_0000 && Mask(HIGH, 5) == 0xFF00_0000_0000
    ensures Mask(HIGH, 6) == 0xFF_0000_0000_0000
    ensures Mask(HIGH, 7) == 0xFF00_0000_0000_0000 - 0x1_0000_0000_0000_0000
  {
    PowersOfTwo();
    assert Bit(LOW, 1) == 32 && Bit(LOW, 2) == 48;
    MaskAsWritten(LOW, 0, 0xFFFF_FFFF);
    MaskAsWritten(LOW, 1, 0xFFFF_0000_0000);
    MaskAsWritten(LOW, 2, -0x1_0000_0000_0000);
    HighMask(0, 0xFF);
    HighMask(1, 0xFF00);
    HighMask(2, 0xFF_0000);
    HighMask(3, 0xFF00_0000);
    HighMask(4, 0xFF_0000_0000);
    HighMask(5, 0xFF00_0000_0000);
    HighMask(6, 0xFF_0000_0000_0000);
    HighMask(7, -0x100_0000_0000_0000);
  }

  lemma HighMask(j: nat, mask: int)
    requires j < 8 && mask == (if j == 7 then -1 else 0xFF) * Pow2(8 * j)
    ensures Mask(HIGH, j) == mask
  {
    PowersOfTwo();
    BytesOfHigh(j);
    HighSlices(j);
    MaskAsWritten(HIGH, j, mask);
  }

  /** Masked and shifted down, a field is the long shifted down, as far as it is printed. */
  lemma PrintedIsHex(v: int, ls: seq<Slice>, j: nat)
    requires Fills(ls) && j < |ls|
    ensures Printed(v, ls, j) == Hex(Shr(v, Bit(ls, j)), ls[j].len)
  {
    var k, len := Bit(ls, j), ls[j].len;
    var x := Shr(v, k);
    if j == |ls| - 1 {
      MaskedField(v, -1, k);
      AndOnes(x);
    } else {
      MaskedField(v, Pow2(4 * len) - 1, k);
      AndCommutes(x, Pow2(4 * len) - 1);
      AndMask(x, 4 * len);
      LowIsWord(x, len);
      HexOfLow(x, len);
    }
  }

  lemma ParsePrinted(v: int, ls: seq<Slice>, j: nat)
    requires Fills(ls) && j < |ls|
    ensures ParseLong(Printed(v, ls, j)) == Some(Field(v, Bit(ls, j), 4 * ls[j].len))
  {
    var x, len := Shr(v, Bit(ls, j)), ls[j].len;
    PrintedIsHex(v, ls, j);
    DigitsOfHex(x, len);
    HexStartsWithDigit(x, len);
    LowIsWord(x, len);
  }

  // ---------------------------------------------------------------- print, then parse

  lemma {:induction false} FieldsParse(s: string, ls: seq<Slice>, fs: seq<int>, n: nat)
    requires SlicesIn(s, ls) && n <= |ls| == |fs|
    requires forall j | 0 <= j < |ls| :: ParseLong(Part(s, ls[j])) == Some(fs[j])
    ensures ParseFields(s, ls, n) == Some(fs[..n])
  {
    if n > 0 {
      FieldsParse(s, ls, fs, n - 1);
      assert fs[..n] == fs[..n - 1] + [fs[n - 1]];
    }
  }

  lemma {:induction false} FieldsExist(v: int, ls: seq<Slice>, n: nat) returns (fs: seq<int>)
    requires n <= |ls|
    ensures |fs| == n && forall j | 0 <= j < n :: fs[j] == Field(v, Bit(ls, j), 4 * ls[j].len)
  {
    if n == 0 {
      fs := [];
    } else {
      fs := FieldsExist(v, ls, n - 1);
      fs := fs + [Field(v, Bit(ls, n - 1), 4 * ls[n - 1].len)];
    }
  }

  /** The long read from one layout, if its fields parse. */
  function LongFrom(t: string, ls: seq<Slice>): Option<int>
    requires ls != [] && SlicesIn(t, ls)
  {
    match ParseFields(t, ls, |ls|)
    case Some(fs) => Some(Join(fs, ls, |ls|))
    case None => None
  }

  lemma ParseIsLongs(s: string)
    requires |Braced(s)| == 38
    ensures SlicesIn(Braced(s), LOW) && SlicesIn(Braced(s), HIGH)
    ensures Parse(s) == match (LongFrom(Braced(s), LOW), LongFrom(Braced(s), HIGH))
                        case (Some(v0), Some(v1)) => Some(GUID(v0, v1))
                        case _ => None
  {
    LayoutsIn(Braced(s));
  }

  /** A text that shows the printed fields of a long parses back to it. */
  lemma ParseShown(s: string, v: int, ls: seq<Slice>)
    requires IsLong(v) && Fills(ls) && SlicesIn(s, ls) && Shows(s, PrintedFields(v, ls), ls)
    ensures LongFrom(s, ls) == Some(v)
  {
    var fs := FieldsExist(v, ls, |ls|);
    forall j | 0 <= j < |ls|
      ensures ParseLong(Part(s, ls[j])) == Some(fs[j])
    {
      ParsePrinted(v, ls, j);
    }
    FieldsParse(s, ls, fs, |ls|);
    assert fs[..|ls|] == fs;
    JoinRebuilds(v, fs, ls);
  }

  lemma TextIsShown(g: GUID)
    ensures PunctuationOk(Text(g)) && SlicesIn(Text(g), LOW) && SlicesIn(Text(g), HIGH)
    ensures Shows(Text(g), PrintedFields(g.v0, LOW), LOW) && Shows(Text(g), PrintedFields(g.v1, HIGH), HIGH)
  {
    TextShows(PrintedFields(g.v0, LOW), PrintedFields(g.v1, HIGH));
  }

  /** Printing any 128 bits and parsing the text gives them back. */
  lemma PrintThenParse(g: GUID)
    requires IsLong(g.v0) && IsLong(g.v1)
    ensures Parse(Text(g)) == Some(g)
  {
    TextReadBack(g);
    LongsParse(Text(g), g);
  }

  lemma LongsParse(t: string, g: GUID)
    requires |t| == 38 && SlicesIn(t, LOW) && SlicesIn(t, HIGH)
    requires LongFrom(t, LOW) == Some(g.v0) && LongFrom(t, HIGH) == Some(g.v1)
    ensures Parse(t) == Some(g)
  {
    ParseIsLongs(t);
  }

  lemma TextReadBack(g: GUID)
    requires IsLong(g.v0) && IsLong(g.v1)
    ensures |Text(g)| == 38 && SlicesIn(Text(g), LOW) && SlicesIn(Text(g), HIGH)
    ensures LongFrom(Text(g), LOW) == Some(g.v0) && LongFrom(Text(g), HIGH) == Some(g.v1)
  {
    LayoutsFill();
    TextIsShown(g);
    ParseShown(Text(g), g.v0, LOW);
    ParseShown(Text(g), g.v1, HIGH);
  }

  // ---------------------------------------------------------------- parse, then print

  ghost predicate HexSlices(t: string, ls: seq<Slice>)
    requires SlicesIn(t, ls)
  {
    forall j | 0 <= j < |ls| :: AllHex(Part(t, ls[j]))
  }

  /** The braced form of section 3 of RFC 4122, in either case of letters. */
  ghost predicate WellFormed(t: string) {
    PunctuationOk(t) && SlicesIn(t, LOW) && HexSlices(t, LOW) && SlicesIn(t, HIGH) && HexSlices(t, HIGH)
  }

  lemma {:induction false} HexFieldsParse(t: string, ls: seq<Slice>, n: nat)
    requires SlicesIn(t, ls) && HexSlices(t, ls) && n <= |ls| && forall j | 0 <= j < |ls| :: ls[j].len > 0
    ensures ParseFields(t, ls, n).Some?
    ensures forall j | 0 <= j < n :: Digits(Part(t, ls[j])) == Some(ParseFields(t, ls, n).value[j])
  {
    if n > 0 {
      HexFieldsParse(t, ls, n - 1);
      var field := Part(t, ls[n - 1]);
      DigitsIffHex(field);
      assert HexVal(field[0]).Some?;
    }
  }

  lemma ReprintedDigits(field: string, v: int, ls: seq<Slice>, j: nat)
    requires Fills(ls) && j < |ls| && |field| == ls[j].len && field != ""
    requires Digits(field) == Some(Field(v, Bit(ls, j), 4 * ls[j].len))
    ensures Printed(v, ls, j) == UpperCase(field)
  {
    var x := Shr(v, Bit(ls, j));
    PrintedIsHex(v, ls, j);
    LowIsWord(x, |field|);
    HexOfLow(x, |field|);
    HexOfDigits(field);
  }

  lemma UpperCaseSlice(t: string, s: Slice)
    requires s.idx + s.len <= |t|
    ensures Part(UpperCase(t), s) == UpperCase(Part(t, s))
  {}

  lemma HexFieldsInRange(t: string, ls: seq<Slice>, fs: seq<int>)
    requires Fills(ls) && SlicesIn(t, ls) && |fs| == |ls|
    requires forall j | 0 <= j < |ls| :: Digits(Part(t, ls[j])) == Some(fs[j])
    ensures InRange(fs, ls)
  {
    forall i | 0 <= i < |ls|
      ensures 0 <= fs[i] < Pow2(4 * ls[i].len)
    {
      DigitsBound(Part(t, ls[i]));
    }
  }

  /** The long of a hexadecimal text prints as the text has it, in upper case. */
  lemma LongShown(t: string, ls: seq<Slice>)
    requires Fills(ls) && SlicesIn(t, ls) && HexSlices(t, ls)
    ensures LongFrom(t, ls).Some? && IsLong(LongFrom(t, ls).value)
    ensures SlicesIn(UpperCase(t), ls) && Shows(UpperCase(t), PrintedFields(LongFrom(t, ls).value, ls), ls)
  {
    HexFieldsParse(t, ls, |ls|);
    var fs := ParseFields(t, ls, |ls|).value;
    HexFieldsInRange(t, ls, fs);
    JoinWhole(fs, ls);
    forall j | 0 <= j < |ls|
      ensures Part(UpperCase(t), ls[j]) == Printed(Join(fs, ls, |ls|), ls, j)
    {
      JoinSplits(fs, ls, j);
      ReprintedDigits(Part(t, ls[j]), Join(fs, ls, |ls|), ls, j);
      UpperCaseSlice(t, ls[j]);
    }
  }

  lemma WellFormedShown(t: string)
    requires WellFormed(t)
    ensures LongFrom(t, LOW).Some? && IsLong(LongFrom(t, LOW).value)
    ensures LongFrom(t, HIGH).Some? && IsLong(LongFrom(t, HIGH).value)
    ensures Text(GUID(LongFrom(t, LOW).value, LongFrom(t, HIGH).value)) == UpperCase(t)
  {
    LayoutsFill();
    LongShown(t, LOW);
    LongShown(t, HIGH);
    UpperCasePunctuation(t);
    ShownIsText(UpperCase(t), PrintedFields(LongFrom(t, LOW).value, LOW), PrintedFields(LongFrom(t, HIGH).value, HIGH));
  }

  /** A well-formed text, with or without braces, parses, and prints as its
      upper-case braced form. */
  lemma ParseThenPrint(s: string)
    requires WellFormed(Braced(s))
    ensures Parse(s).Some? && IsLong(Parse(s).value.v0) && IsLong(Parse(s).value.v1)
    ensures Text(Parse(s).value) == UpperCase(Braced(s))
  {
    ParseIsLongs(s);
    WellFormedShown(Braced(s));
  }

  lemma UpperIsHex(c: char)
    ensures HexVal(Upper(c)).Some? <==> HexVal(c).Some?
    ensures Upper(c) == '-' <==> c == '-'
    ensures Upper(c) == '{' <==> c == '{'
    ensures Upper(c) == '}' <==> c == '}'
  {}

  lemma UpperCasePunctuation(t: string)
    requires |t| == 38
    ensures PunctuationOk(UpperCase(t)) <==> PunctuationOk(t)
  {
    UpperIsHex(t[0]);
    UpperIsHex(t[9]);
    UpperIsHex(t[14]);
    UpperIsHex(t[19]);
    UpperIsHex(t[24]);
    UpperIsHex(t[37]);
  }

  lemma {:induction false} HexIsHex(n: int, len: nat)
    ensures AllHex(Hex(n, len))
    decreases len
  {
    if len > 0 {
      HexIsHex(n / 16, len - 1);
      ValOfDigit(n % 16);
    }
  }

  lemma ShownIsHex(t: string, v: int, ls: seq<Slice>)
    requires SlicesIn(t, ls) && Shows(t, PrintedFields(v, ls), ls)
    ensures HexSlices(t, ls)
  {
    forall j | 0 <= j < |ls|
      ensures AllHex(Part(t, ls[j]))
    {
      HexIsHex(Shr(And(v, Mask(ls, j)), Bit(ls, j)), ls[j].len);
    }
  }

  lemma TextIsWellFormed(g: GUID)
    ensures WellFormed(Text(g))
  {
    TextIsShown(g);
    ShownIsHex(Text(g), g.v0, LOW);
    ShownIsHex(Text(g), g.v1, HIGH);
  }

  lemma LowerCaseHex(s: string)
    requires AllHex(UpperCase(s))
    ensures AllHex(s)
  {
    forall i | 0 <= i < |s|
      ensures HexVal(s[i]).Some?
    {
      assert HexVal(UpperCase(s)[i]).Some?;
      UpperIsHex(s[i]);
    }
  }

  lemma LowerCaseToo(t: string, ls: seq<Slice>)
    requires SlicesIn(t, ls) && SlicesIn(UpperCase(t), ls) && HexSlices(UpperCase(t), ls)
    ensures HexSlices(t, ls)
  {
    forall j | 0 <= j < |ls|
      ensures AllHex(Part(t, ls[j]))
    {
      UpperCaseSlice(t, ls[j]);
      LowerCaseHex(Part(t, ls[j]));
    }
  }

  lemma UpperCaseWellFormed(t: string)
    requires WellFormed(UpperCase(t))
    ensures WellFormed(t)
  {
    UpperCasePunctuation(t);
    LayoutsIn(t);
    LowerCaseToo(t, LOW);
    LowerCaseToo(t, HIGH);
  }

  /** What the parser accepts without being well-formed does not print as it was
      written: the two agree on well-formed texts and on no others. */
  lemma PrintsAsWrittenIffWellFormed(s: string)
    requires Parse(s).Some?
    ensures Text(Parse(s).value) == UpperCase(Braced(s)) <==> WellFormed(Braced(s))
  {
    if WellFormed(Braced(s)) {
      ParseThenPrint(s);
    }
    TextIsWellFormed(Parse(s).value);
    if Text(Parse(s).value) == UpperCase(Braced(s)) {
      UpperCaseWellFormed(Braced(s));
    }
  }

  // ---------------------------------------------------------------- capitals

  ghost predicate NoSmallLetter(s: string) {
    forall i | 0 <= i < |s| :: !('a' <= s[i] <= 'f')
  }

  lemma {:induction false} HexIsCapital(n: int, len: nat)
    ensures NoSmallLetter(Hex(n, len))
    decreases len
  {
    if len > 0 {
      HexIsCapital(n / 16, len - 1);
    }
  }

  lemma {:induction false} RunIsCapital(ps: seq<string>, i: nat, n: nat)
    requires i <= n <= |ps| && forall j | 0 <= j < |ps| :: NoSmallLetter(ps[j])
    ensures NoSmallLetter(Run(ps, i, n))
    decreases n
  {
    if i < n {
      RunIsCapital(ps, i, n - 1);
    }
  }

  lemma FieldsAreCapital(v: int, ls: seq<Slice>)
    ensures forall j | 0 <= j < |ls| :: NoSmallLetter(PrintedFields(v, ls)[j])
  {
    forall j | 0 <= j < |ls|
      ensures NoSmallLetter(PrintedFields(v, ls)[j])
    {
      HexIsCapital(Shr(And(v, Mask(ls, j)), Bit(ls, j)), ls[j].len);
    }
  }

  lemma PunctuatedIsCapital(a: string, b: string, c: string, d: string, e: string)
    requires NoSmallLetter(a) && NoSmallLetter(b) && NoSmallLetter(c) && NoSmallLetter(d) && NoSmallLetter(e)
    ensures NoSmallLetter(Punctuated(a, b, c, d, e))
  {}

  /** The printed form has its letters in capitals. */
  lemma PrintsCapitals(g: GUID)
    ensures forall i | 0 <= i < |Text(g)| :: !('a' <= Text(g)[i] <= 'f')
  {
    var lo, hi := PrintedFields(g.v0, LOW), PrintedFields(g.v1, HIGH);
    FieldsAreCapital(g.v0, LOW);
    FieldsAreCapital(g.v1, HIGH);
    RunIsCapital(hi, 0, 2);
    RunIsCapital(hi, 2, 8);
    PunctuatedIsCapital(lo[0], lo[1], lo[2], Run(hi, 0, 2), Run(hi, 2, 8));
  }

  // ---------------------------------------------------------------- ways to write the same GUID

  /** The same character, or a small letter a to f and its capital. */
  ghost predicate SameButCaseAt(c: char, d: char) {
    c == d || ('a' <= c <= 'f' && c as int - 'a' as int == d as int - 'A' as int)
  }

  ghost predicate SameButCase(s: string, t: string) {
    |s| == |t| && forall i | 0 <= i < |s| :: SameButCaseAt(s[i], t[i])
  }

  lemma SameDigit(c: char, d: char)
    requires SameButCaseAt(c, d)
    ensures HexVal(c) == HexVal(d) && (c == '-' <==> d == '-') && (c == '+' <==> d == '+')
  {}

  lemma CaseOfPart(s: string, t: string, from: nat, to: nat)
    requires SameButCase(s, t) && from <= to <= |s|
    ensures SameButCase(s[from..to], t[from..to])
  {}

  lemma {:induction false} DigitsInEitherCase(s: string, t: string)
    requires s != "" && SameButCase(s, t)
    ensures Digits(s) == Digits(t)
  {
    var last := |s| - 1;
    SameDigit(s[last], t[last]);
    if last > 0 {
      CaseOfPart(s, t, 0, last);
      DigitsInEitherCase(s[..last], t[..last]);
    }
  }

  lemma ParseLongInEitherCase(s: string, t: string)
    requires SameButCase(s, t)
    ensures ParseLong(s) == ParseLong(t)
  {
    if s != "" {
      SameDigit(s[0], t[0]);
      DigitsInEitherCase(s, t);
      if |s| > 1 {
        CaseOfPart(s, t, 1, |s|);
        DigitsInEitherCase(s[1..], t[1..]);
      }
    }
  }

  lemma PartInEitherCase(s: string, t: string, l: Slice)
    requires SameButCase(s, t) && l.idx + l.len <= |s|
    ensures ParseLong(Part(s, l)) == ParseLong(Part(t, l))
  {
    CaseOfPart(s, t, l.idx, l.idx + l.len);
    ParseLongInEitherCase(Part(s, l), Part(t, l));
  }

  lemma {:induction false} SameFields(s: string, t: string, ls: seq<Slice>, n: nat)
    requires SlicesIn(s, ls) && SlicesIn(t, ls) && n <= |ls|
    requires forall j | 0 <= j < n :: ParseLong(Part(s, ls[j])) == ParseLong(Part(t, ls[j]))
    ensures ParseFields(s, ls, n) == ParseFields(t, ls, n)
  {
    if n > 0 {
      SameFields(s, t, ls, n - 1);
    }
  }

  lemma FieldsInEitherCase(s: string, t: string, ls: seq<Slice>)
    requires SameButCase(s, t) && SlicesIn(s, ls) && SlicesIn(t, ls)
    ensures ParseFields(s, ls, |ls|) == ParseFields(t, ls, |ls|)
  {
    forall j | 0 <= j < |ls|
      ensures ParseLong(Part(s, ls[j])) == ParseLong(Part(t, ls[j]))
    {
      PartInEitherCase(s, t, ls[j]);
    }
    SameFields(s, t, ls, |ls|);
  }

  /** Small and capital letters are the same to the parser, and so are a text of
      36 characters and the same in braces; no other length is accepted. */
  lemma ParsesAlike(s: string, t: string)
    requires SameButCase(s, t)
    ensures Parse(s) == Parse(t)
    ensures |s| == 36 ==> Parse("{" + s + "}") == Parse(t)
    ensures |s| !in {36, 38} ==> Parse(s).None?
  {
    var b, c := Braced(s), Braced(t);
    assert SameButCase(b, c) by {
      if |s| == 36 {
        assert forall i | 0 <= i < 36 :: b[i + 1] == s[i] && c[i + 1] == t[i];
        assert forall i | 0 < i < 37 :: b[i] == s[i - 1] && c[i] == t[i - 1];
      }
    }
    if |b| == 38 {
      LayoutsIn(b);
      LayoutsIn(c);
      FieldsInEitherCase(b, c, LOW);
      FieldsInEitherCase(b, c, HIGH);
    }
    if |s| == 36 {
      assert Braced("{" + s + "}") == b;
    }
  }
}

/** The text of a GUID as a layout of fields between braces and dashes. */
module GuidText {

  /** A field of the text: `len` digits from position `idx`. */
  datatype Slice = Slice(idx: nat, len: nat)

  /** The fields of the two longs, least significant first. */
  const LOW: seq<Slice> := [Slice(1, 8), Slice(10, 4), Slice(15, 4)]
  const HIGH: seq<Slice> := [Slice(20, 2), Slice(22, 2), Slice(25, 2), Slice(27, 2),
                             Slice(29, 2), Slice(31, 2), Slice(33, 2), Slice(35, 2)]

  ghost predicate SlicesIn(s: string, ls: seq<Slice>) {
    forall j | 0 <= j < |ls| :: ls[j].idx + ls[j].len <= |s|
  }

  lemma LayoutsIn(t: string)
    requires |t| == 38
    ensures SlicesIn(t, LOW) && SlicesIn(t, HIGH)
  {}

  function Part(t: string, s: Slice): string
    requires s.idx + s.len <= |t|
  {
    t[s.idx..s.idx + s.len]
  }

  /** The text of each field. */
  ghost predicate Fit(ps: seq<string>, ls: seq<Slice>) {
    |ps| == |ls| && forall j | 0 <= j < |ls| :: |ps[j]| == ls[j].len
  }

  ghost predicate Shows(t: string, ps: seq<string>, ls: seq<Slice>)
    requires SlicesIn(t, ls)
  {
    |ps| == |ls| && forall j | 0 <= j < |ls| :: Part(t, ls[j]) == ps[j]
  }

  /** Fields `i` to `n` one after the other. */
  function Run(ps: seq<string>, i: nat, n: nat): string
    requires i <= n <= |ps|
  {
    if i == n then "" else Run(ps, i, n - 1) + ps[n - 1]
  }

  function Punctuated(a: string, b: string, c: string, d: string, e: string): string {
    "{" + a + "-" + b + "-" + c + "-" + d + "-" + e + "}"
  }

  /** The text with the given fields. */
  function TextOf(lo: seq<string>, hi: seq<string>): string
    requires |lo| == 3 && |hi| == 8
  {
    Punctuated(lo[0], lo[1], lo[2], Run(hi, 0, 2), Run(hi, 2, 8))
  }

  ghost predicate PunctuationOk(t: string) {
    |t| == 38 && t[0] == '{' && t[9] == t[14] == t[19] == t[24] == '-' && t[37] == '}'
  }

  // ---------------------------------------------------------------- the parts of a text

  lemma PartsOfText(a: string, b: string, c: string, d: string, e: string)
    requires |a| == 8 && |b| == 4 && |c| == 4 && |d| == 4 && |e| == 12
    ensures var t := Punctuated(a, b, c, d, e);
            && PunctuationOk(t)
            && t[1..9] == a && t[10..14] == b && t[15..19] == c && t[20..24] == d && t[25..37] == e
  {}

  /** Where field `j` of the second long starts. */
  function HighStart(j: nat): nat {
    if j < 2 then 20 + 2 * j else 21 + 2 * j
  }

  lemma LowSlices(j: nat)
    requires j < 3
    ensures LOW[j] == if j == 0 then Slice(1, 8) else if j == 1 then Slice(10, 4) else Slice(15, 4)
  {}

  lemma HighSlices(j: nat)
    requires j < 8
    ensures HIGH[j] == Slice(HighStart(j), 2)
  {}

  lemma {:induction false} RunLength(ps: seq<string>, i: nat, n: nat)
    requires i <= n <= |ps| && forall j | 0 <= j < |ps| :: |ps[j]| == 2
    ensures |Run(ps, i, n)| == 2 * (n - i)
  {
    if i < n {
      RunLength(ps, i, n - 1);
    }
  }

  lemma {:induction false} RunPart(ps: seq<string>, i: nat, j: nat, n: nat)
    requires i <= j < n <= |ps| && forall k | 0 <= k < |ps| :: |ps[k]| == 2
    ensures |Run(ps, i, n)| == 2 * (n - i)
    ensures Run(ps, i, n)[2 * (j - i)..2 * (j - i) + 2] == ps[j]
    decreases n
  {
    RunLength(ps, i, n - 1);
    if j < n - 1 {
      RunPart(ps, i, j, n - 1);
    }
  }

  lemma SliceOfSlice(t: string, a: nat, b: nat, k: nat)
    requires a + k + 2 <= b <= |t|
    ensures t[a..b][k..k + 2] == t[a + k..a + k + 2]
  {
    var x, y := t[a..b][k..k + 2], t[a + k..a + k + 2];
    assert x[0] == y[0] && x[1] == y[1];
    assert x == y;
  }

  lemma BytesAre2(hi: seq<string>)
    requires Fit(hi, HIGH)
    ensures |hi| == 8 && forall j | 0 <= j < 8 :: |hi[j]| == 2
  {
    forall j | 0 <= j < 8
      ensures |hi[j]| == 2
    {
      HighSlices(j);
    }
  }

  /** A text shows the fields it was made of. */
  lemma TextShows(lo: seq<string>, hi: seq<string>)
    requires Fit(lo, LOW) && Fit(hi, HIGH)
    ensures PunctuationOk(TextOf(lo, hi))
    ensures SlicesIn(TextOf(lo, hi), LOW) && Shows(TextOf(lo, hi), lo, LOW)
    ensures SlicesIn(TextOf(lo, hi), HIGH) && Shows(TextOf(lo, hi), hi, HIGH)
  {
    var t := TextOf(lo, hi);
    BytesAre2(hi);
    RunLength(hi, 0, 2);
    RunLength(hi, 2, 8);
    LowSlices(0);
    LowSlices(1);
    LowSlices(2);
    PartsOfText(lo[0], lo[1], lo[2], Run(hi, 0, 2), Run(hi, 2, 8));
    LayoutsIn(t);
    forall j | 0 <= j < |HIGH|
      ensures Part(t, HIGH[j]) == hi[j]
    {
      HighSlices(j);
      ByteShown(t, hi, j);
    }
  }

  lemma ByteShown(t: string, hi: seq<string>, j: nat)
    requires |t| == 38 && |hi| == 8 && j < 8 && forall k | 0 <= k < 8 :: |hi[k]| == 2
    requires t[20..24] == Run(hi, 0, 2) && t[25..37] == Run(hi, 2, 8)
    ensures t[HighStart(j)..HighStart(j) + 2] == hi[j]
  {
    if j < 2 {
      RunPart(hi, 0, j, 2);
      SliceOfSlice(t, 20, 24, 2 * j);
    } else {
      RunPart(hi, 2, j, 8);
      SliceOfSlice(t, 25, 37, 2 * (j - 2));
    }
  }

  // ---------------------------------------------------------------- the text of some parts

  lemma Adjacent(u: string, a: nat, b: nat)
    requires a <= b && b + 2 <= |u|
    ensures u[a..b] + u[b..b + 2] == u[a..b + 2]
  {}

  lemma RunOfOne(ps: seq<string>, i: nat)
    requires i < |ps|
    ensures Run(ps, i, i + 1) == ps[i]
  {
    assert Run(ps, i, i) + ps[i] == ps[i];
  }

  lemma OneMoreByte(u: string, ps: seq<string>, i: nat, n: nat, a: nat, b: nat)
    requires i <= n < |ps| && a <= b && b + 2 <= |u|
    requires Run(ps, i, n) == u[a..b] && u[b..b + 2] == ps[n]
    ensures Run(ps, i, n + 1) == u[a..b + 2]
  {
    Adjacent(u, a, b);
  }

  /** Adjacent fields of two digits. */
  lemma {:induction false} BytesShown(u: string, hi: seq<string>, i: nat, n: nat)
    requires |u| == 38 && i < n <= |hi| <= 8 && (n <= 2 || 2 <= i)
    requires forall j | i <= j < n :: u[HighStart(j)..HighStart(j) + 2] == hi[j]
    ensures Run(hi, i, n) == u[HighStart(i)..HighStart(n - 1) + 2]
  {
    if i < n - 1 {
      BytesShown(u, hi, i, n - 1);
      assert HighStart(n - 1) == HighStart(n - 2) + 2;
      OneMoreByte(u, hi, i, n - 1, HighStart(i), HighStart(n - 1));
    } else {
      RunOfOne(hi, i);
    }
  }

  lemma PunctuatedIs(u: string)
    requires PunctuationOk(u)
    ensures Punctuated(u[1..9], u[10..14], u[15..19], u[20..24], u[25..37]) == u
  {
    PartsOfText(u[1..9], u[10..14], u[15..19], u[20..24], u[25..37]);
    var t := Punctuated(u[1..9], u[10..14], u[15..19], u[20..24], u[25..37]);
    forall k | 0 <= k < 38
      ensures t[k] == u[k]
    {
      SameChar(t, u, k);
    }
  }

  lemma SameChar(t: string, u: string, k: nat)
    requires PunctuationOk(t) && PunctuationOk(u) && k < 38
    requires t[1..9] == u[1..9] && t[10..14] == u[10..14] && t[15..19] == u[15..19]
    requires t[20..24] == u[20..24] && t[25..37] == u[25..37]
    ensures t[k] == u[k]
  {
    if 1 <= k < 9 {
      assert t[1..9][k - 1] == u[1..9][k - 1];
    } else if 10 <= k < 14 {
      assert t[10..14][k - 10] == u[10..14][k - 10];
    } else if 15 <= k < 19 {
      assert t[15..19][k - 15] == u[15..19][k - 15];
    } else if 20 <= k < 24 {
      assert t[20..24][k - 20] == u[20..24][k - 20];
    } else if 25 <= k < 37 {
      assert t[25..37][k - 25] == u[25..37][k - 25];
    }
  }

  /** A punctuated text is made of the fields it shows. */
  lemma ShownIsText(u: string, lo: seq<string>, hi: seq<string>)
    requires PunctuationOk(u) && SlicesIn(u, LOW) && SlicesIn(u, HIGH)
    requires Shows(u, lo, LOW) && Shows(u, hi, HIGH)
    ensures |lo| == 3 && |hi| == 8 && TextOf(lo, hi) == u
  {
    LowSlices(0);
    LowSlices(1);
    LowSlices(2);
    assert Part(u, LOW[0]) == lo[0] && Part(u, LOW[1]) == lo[1] && Part(u, LOW[2]) == lo[2];
    forall j | 0 <= j < 8
      ensures u[HighStart(j)..HighStart(j) + 2] == hi[j]
    {
      HighSlices(j);
      assert Part(u, HIGH[j]) == hi[j];
    }
    BytesShown(u, hi, 0, 2);
    BytesShown(u, hi, 2, 8);
    PunctuatedIs(u);
  }
}

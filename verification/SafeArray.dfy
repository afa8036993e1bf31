/** Multi-dimensional SAFEARRAY marshalling: a nested Java array is flattened
    into the data of a SAFEARRAY and rebuilt from it, both by recursive routines
    that share one moving cursor.

    Bounds are listed as in SafeArrayCreate: `bounds[0]` belongs to the
    innermost Java dimension and varies fastest in memory.
 */
module SafeArraySpec {

  /** A Java value: an array of values, or an element that is not an array. */
  datatype Nested<T> = Leaf(value: T) | Arr(elems: seq<Nested<T>>)

  function Last<T>(s: seq<T>): T
    requires s != []
  {
    s[|s| - 1]
  }

  function Front<T>(s: seq<T>): seq<T>
    requires s != []
  {
    s[..|s| - 1]
  }

  /** How many elements the bounds make room for, counted row by row. */
  function Size(bounds: seq<nat>): nat
    decreases |bounds|, 1, 0
  {
    if bounds == [] then 1 else RowsSize(Front(bounds), Last(bounds))
  }

  function RowsSize(inner: seq<nat>, n: nat): nat
    decreases |inner| + 1, 0, n
  {
    if n == 0 then 0 else RowsSize(inner, n - 1) + Size(inner)
  }

  lemma {:induction false} RowsMonotone(inner: seq<nat>, m: nat, n: nat)
    requires m <= n
    ensures RowsSize(inner, m) <= RowsSize(inner, n)
    decreases n
  {
    if m < n {
      RowsMonotone(inner, m, n - 1);
    }
  }

  function Product(bounds: seq<nat>): nat {
    if bounds == [] then 1 else Product(Front(bounds)) * Last(bounds)
  }

  lemma {:induction false} SizeIsProduct(bounds: seq<nat>)
    ensures Size(bounds) == Product(bounds)
    decreases |bounds|
  {
    if bounds != [] {
      SizeIsProduct(Front(bounds));
      RowsAreMultiples(Front(bounds), Last(bounds));
    }
  }

  lemma {:induction false} RowsAreMultiples(inner: seq<nat>, n: nat)
    ensures RowsSize(inner, n) == Size(inner) * n
    decreases n
  {
    if n > 0 {
      RowsAreMultiples(inner, n - 1);
    }
  }

  /** The bounds the marshaller finds by following first elements. */
  function Bounds<T>(a: Nested<T>): seq<nat> {
    match a
    case Leaf(_) => []
    case Arr(es) => (if es == [] then [] else Bounds(es[0])) + [|es|]
  }

  /** Every array at depth `k` from the inside has exactly `bounds[k]` elements. */
  predicate Rectangular<T>(a: Nested<T>, bounds: seq<nat>)
    decreases |bounds|
  {
    if bounds == [] then a.Leaf?
    else a.Arr? && |a.elems| == Last(bounds)
         && forall i | 0 <= i < Last(bounds) :: Rectangular(a.elems[i], Front(bounds))
  }

  /** Every array the flattening visits has at least `bounds[k]` elements:
      what the routine needs in order not to read past a Java array. */
  predicate Covers<T>(a: Nested<T>, bounds: seq<nat>)
    decreases |bounds|
  {
    if bounds == [] then a.Leaf?
    else a.Arr? && |a.elems| >= Last(bounds)
         && forall i | 0 <= i < Last(bounds) :: Covers(a.elems[i], Front(bounds))
  }

  /** The elements in the order in which the flattening visits them. */
  function Flat<T>(a: Nested<T>, bounds: seq<nat>): (r: seq<T>)
    requires Covers(a, bounds)
    ensures |r| == Size(bounds)
    decreases |bounds|, 1, 0
  {
    if bounds == [] then [a.value] else FlatRows(a, bounds, Last(bounds))
  }

  function FlatRows<T>(a: Nested<T>, bounds: seq<nat>, n: nat): (r: seq<T>)
    requires bounds != [] && Covers(a, bounds) && n <= Last(bounds)
    ensures |r| == RowsSize(Front(bounds), n)
    decreases |bounds|, 0, n
  {
    if n == 0 then [] else FlatRows(a, bounds, n - 1) + Flat(a.elems[n - 1], Front(bounds))
  }

  /** The nested array a flat sequence stands for. */
  function Nest<T>(data: seq<T>, bounds: seq<nat>): Nested<T>
    requires |data| == Size(bounds)
    decreases |bounds|, 1, 0
  {
    if bounds == [] then Leaf(data[0]) else Arr(NestRows(data, Front(bounds), Last(bounds)))
  }

  function NestRows<T>(data: seq<T>, inner: seq<nat>, n: nat): (r: seq<Nested<T>>)
    requires |data| == RowsSize(inner, n)
    ensures |r| == n
    decreases |inner| + 1, 0, n
  {
    if n == 0 then []
    else
      var cut := RowsSize(inner, n - 1);
      NestRows(data[..cut], inner, n - 1) + [Nest(data[cut..], inner)]
  }

  // ---------------------------------------------------------------- shape

  lemma {:induction false} RectangularCovers<T>(a: Nested<T>, bounds: seq<nat>)
    requires Rectangular(a, bounds)
    ensures Covers(a, bounds)
    decreases |bounds|
  {
    if bounds != [] {
      forall i | 0 <= i < Last(bounds) ensures Covers(a.elems[i], Front(bounds)) {
        RectangularCovers(a.elems[i], Front(bounds));
      }
    }
  }

  /** An array of any rectangular shape is rectangular for the bounds that the
      marshaller finds, which drop the dimensions below an empty one. */
  lemma {:induction false} FoundBounds<T>(a: Nested<T>, bounds: seq<nat>)
    requires Rectangular(a, bounds)
    ensures Rectangular(a, Bounds(a))
    ensures 0 !in bounds ==> Bounds(a) == bounds
    decreases |bounds|
  {
    if bounds != [] && a.elems != [] {
      forall i | 0 <= i < |a.elems| ensures Rectangular(a.elems[i], Bounds(a.elems[0])) {
        SameBounds(a.elems[i], a.elems[0], Front(bounds));
        FoundBounds(a.elems[i], Front(bounds));
      }
      FoundBounds(a.elems[0], Front(bounds));
      assert Front(Bounds(a)) == Bounds(a.elems[0]);
      assert bounds == Front(bounds) + [Last(bounds)];
    }
  }

  lemma {:induction false} SameBounds<T>(a: Nested<T>, b: Nested<T>, bounds: seq<nat>)
    requires Rectangular(a, bounds) && Rectangular(b, bounds)
    ensures Bounds(a) == Bounds(b)
    decreases |bounds|
  {
    if bounds != [] && a.elems != [] {
      SameBounds(a.elems[0], b.elems[0], Front(bounds));
    }
  }

  lemma {:induction false} NestIsRectangular<T>(data: seq<T>, bounds: seq<nat>)
    requires |data| == Size(bounds)
    ensures Rectangular(Nest(data, bounds), bounds)
    decreases |bounds|, 0
  {
    if bounds != [] {
      NestRowsAreRectangular(data, Front(bounds), Last(bounds));
    }
  }

  lemma {:induction false} NestRowsAreRectangular<T>(data: seq<T>, inner: seq<nat>, n: nat)
    requires |data| == RowsSize(inner, n)
    ensures forall i | 0 <= i < n :: Rectangular(NestRows(data, inner, n)[i], inner)
    decreases |inner|, n + 1
  {
    if n > 0 {
      var cut := RowsSize(inner, n - 1);
      NestRowsAreRectangular(data[..cut], inner, n - 1);
      NestIsRectangular(data[cut..], inner);
    }
  }

  // ---------------------------------------------------------------- round trips

  /** Flattening and rebuilding a rectangular array gives it back. */
  lemma {:induction false} NestFlat<T>(a: Nested<T>, bounds: seq<nat>)
    requires Rectangular(a, bounds) && Covers(a, bounds)
    ensures Nest(Flat(a, bounds), bounds) == a
    decreases |bounds|, 0
  {
    if bounds != [] {
      NestFlatRows(a, bounds, Last(bounds));
    }
  }

  lemma {:induction false} NestFlatRows<T>(a: Nested<T>, bounds: seq<nat>, n: nat)
    requires bounds != [] && Rectangular(a, bounds) && Covers(a, bounds) && n <= Last(bounds)
    ensures NestRows(FlatRows(a, bounds, n), Front(bounds), n) == a.elems[..n]
    decreases |bounds| - 1, n + 1
  {
    if n > 0 {
      NestFlatRows(a, bounds, n - 1);
      NestFlat(a.elems[n - 1], Front(bounds));
      NestOneMore(FlatRows(a, bounds, n - 1), Flat(a.elems[n - 1], Front(bounds)), Front(bounds), n - 1);
      assert a.elems[..n] == a.elems[..n - 1] + [a.elems[n - 1]];
    }
  }

  lemma {:induction false} NestOneMore<T>(rows: seq<T>, row: seq<T>, inner: seq<nat>, n: nat)
    requires |rows| == RowsSize(inner, n) && |row| == Size(inner)
    ensures |rows + row| == RowsSize(inner, n + 1)
    ensures NestRows(rows + row, inner, n + 1) == NestRows(rows, inner, n) + [Nest(row, inner)]
  {
    assert (rows + row)[..|rows|] == rows;
    assert (rows + row)[|rows|..] == row;
  }

  /** Flattening something ragged loses what does not fit: rebuilding gives the
      array back exactly when it is rectangular for the bounds used. */
  lemma RoundTripIffRectangular<T>(a: Nested<T>, bounds: seq<nat>)
    requires Covers(a, bounds)
    ensures Nest(Flat(a, bounds), bounds) == a <==> Rectangular(a, bounds)
  {
    NestIsRectangular(Flat(a, bounds), bounds);
    if Rectangular(a, bounds) {
      NestFlat(a, bounds);
    }
  }

  /** Rebuilding and flattening gives the data back. */
  lemma {:induction false} FlatNest<T>(data: seq<T>, bounds: seq<nat>)
    requires |data| == Size(bounds)
    ensures Covers(Nest(data, bounds), bounds) && Flat(Nest(data, bounds), bounds) == data
    decreases |bounds|, 0
  {
    NestIsRectangular(data, bounds);
    RectangularCovers(Nest(data, bounds), bounds);
    if bounds != [] {
      FlatNestRows(data, bounds, Last(bounds));
      assert data[..|data|] == data;
    }
  }

  lemma {:induction false} FlatNestRows<T>(data: seq<T>, bounds: seq<nat>, n: nat)
    requires bounds != [] && |data| == Size(bounds) && n <= Last(bounds)
    requires Covers(Nest(data, bounds), bounds)
    ensures RowsSize(Front(bounds), n) <= |data|
    ensures FlatRows(Nest(data, bounds), bounds, n) == data[..RowsSize(Front(bounds), n)]
    decreases |bounds| - 1, n + 1
  {
    RowsMonotone(Front(bounds), n, Last(bounds));
    if n > 0 {
      FlatNestRows(data, bounds, n - 1);
      NestRowAt(data, Front(bounds), Last(bounds), n - 1);
      FlatNest(data[RowsSize(Front(bounds), n - 1)..RowsSize(Front(bounds), n)], Front(bounds));
    }
  }

  lemma {:induction false} NestRowAt<T>(data: seq<T>, inner: seq<nat>, n: nat, i: nat)
    requires |data| == RowsSize(inner, n) && i < n
    ensures RowsSize(inner, i) + Size(inner) == RowsSize(inner, i + 1) <= |data|
    ensures NestRows(data, inner, n)[i] == Nest(data[RowsSize(inner, i)..RowsSize(inner, i + 1)], inner)
    decreases n
  {
    RowsMonotone(inner, i + 1, n);
    var cut := RowsSize(inner, n - 1);
    if i < n - 1 {
      RowsMonotone(inner, i + 1, n - 1);
      NestRowAt(data[..cut], inner, n - 1, i);
      assert data[..cut][RowsSize(inner, i)..RowsSize(inner, i + 1)]
          == data[RowsSize(inner, i)..RowsSize(inner, i + 1)];
    } else {
      assert data[cut..] == data[RowsSize(inner, i)..RowsSize(inner, i + 1)];
    }
  }

  // ---------------------------------------------------------------- the index formula

  /** Indices as SAFEARRAY takes them, innermost Java dimension first. */
  predicate InRange(ix: seq<nat>, bounds: seq<nat>) {
    |ix| == |bounds| && forall k | 0 <= k < |ix| :: ix[k] < bounds[k]
  }

  /** The sum over k of `ix[k]` times the product of `bounds[j]` for j < k. */
  function Offset(ix: seq<nat>, bounds: seq<nat>): nat
    requires |ix| == |bounds|
  {
    if ix == [] then 0 else Offset(Front(ix), Front(bounds)) + Product(Front(bounds)) * Last(ix)
  }

  /** `a[i_{n-1}]...[i_0]`: Java applies the outermost index first. */
  function At<T>(a: Nested<T>, ix: seq<nat>, bounds: seq<nat>): T
    requires Covers(a, bounds) && InRange(ix, bounds)
    decreases |ix|
  {
    if ix == [] then a.value else At(a.elems[Last(ix)], Front(ix), Front(bounds))
  }

  lemma MulStep(p: nat, n: nat)
    ensures p * (n + 1) == p * n + p
  {
  }

  lemma MulMonotone(p: nat, m: nat, n: nat)
    requires m <= n
    ensures p * m <= p * n
  {
  }

  lemma {:induction false} OffsetInRange(ix: seq<nat>, bounds: seq<nat>)
    requires InRange(ix, bounds)
    ensures Offset(ix, bounds) < Product(bounds)
    decreases |ix|
  {
    if ix != [] {
      OffsetInRange(Front(ix), Front(bounds));
      MulStep(Product(Front(bounds)), Last(ix));
      MulMonotone(Product(Front(bounds)), Last(ix) + 1, Last(bounds));
    }
  }

  lemma {:induction false} FlatRowAt<T>(a: Nested<T>, bounds: seq<nat>, n: nat, i: nat, j: nat)
    requires bounds != [] && Covers(a, bounds) && i < n <= Last(bounds) && j < Size(Front(bounds))
    ensures RowsSize(Front(bounds), i) + j < |FlatRows(a, bounds, n)|
    ensures FlatRows(a, bounds, n)[RowsSize(Front(bounds), i) + j] == Flat(a.elems[i], Front(bounds))[j]
    decreases n
  {
    RowsMonotone(Front(bounds), i + 1, n);
    if i < n - 1 {
      RowsMonotone(Front(bounds), i + 1, n - 1);
      FlatRowAt(a, bounds, n - 1, i, j);
    }
  }

  /** The element at the given indices sits at their offset. */
  lemma {:induction false} IndexFormula<T>(a: Nested<T>, ix: seq<nat>, bounds: seq<nat>)
    requires Covers(a, bounds) && InRange(ix, bounds)
    ensures Offset(ix, bounds) < |Flat(a, bounds)|
    ensures Flat(a, bounds)[Offset(ix, bounds)] == At(a, ix, bounds)
    decreases |ix|
  {
    if ix != [] {
      IndexFormula(a.elems[Last(ix)], Front(ix), Front(bounds));
      SizeIsProduct(Front(bounds));
      RowsAreMultiples(Front(bounds), Last(ix));
      FlatRowAt(a, bounds, Last(bounds), Last(ix), Offset(Front(ix), Front(bounds)));
    }
  }

  /** No two index tuples share an offset. */
  lemma {:induction false} OffsetInjective(ix: seq<nat>, jx: seq<nat>, bounds: seq<nat>)
    requires InRange(ix, bounds) && InRange(jx, bounds) && Offset(ix, bounds) == Offset(jx, bounds)
    ensures ix == jx
    decreases |ix|
  {
    if ix != [] {
      var p := Product(Front(bounds));
      OffsetInRange(Front(ix), Front(bounds));
      OffsetInRange(Front(jx), Front(bounds));
      SameQuotient(Last(ix), Offset(Front(ix), Front(bounds)), Last(jx), Offset(Front(jx), Front(bounds)), p);
      OffsetInjective(Front(ix), Front(jx), Front(bounds));
      assert ix == Front(ix) + [Last(ix)] && jx == Front(jx) + [Last(jx)];
    }
  }

  lemma QuotientOrder(i: nat, r: nat, j: nat, q: nat, p: nat)
    requires r < p
    ensures i < j ==> r + p * i < q + p * j
  {
    if i < j {
      MulStep(p, i);
      MulMonotone(p, i + 1, j);
    }
  }

  lemma SameQuotient(i: nat, r: nat, j: nat, q: nat, p: nat)
    requires r < p && q < p && r + p * i == q + p * j
    ensures i == j && r == q
  {
    QuotientOrder(i, r, j, q, p);
    QuotientOrder(j, q, i, r, p);
  }
}

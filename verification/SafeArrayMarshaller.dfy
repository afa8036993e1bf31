/** The two marshallers in their imperative form, proved against SafeArraySpec.

    `J` is the Java element type, `N` the native one; the element transducers are
    the functions `toNative` and `toJava`.
 */
module SafeArrayMarshaller {
  import opened SafeArraySpec

  datatype SafeArrayBound = SafeArrayBound(lLbound: int, cElements: nat)

  function Counts(bounds: seq<SafeArrayBound>): (r: seq<nat>)
    ensures |r| == |bounds|
    ensures forall i | 0 <= i < |r| :: r[i] == bounds[i].cElements
  {
    if bounds == [] then [] else Counts(bounds[..|bounds| - 1]) + [bounds[|bounds| - 1].cElements]
  }

  /** A SAFEARRAY: its bounds and a block of memory for all its elements. */
  class SafeArray<N(0)> {
    const bounds: seq<SafeArrayBound>
    const data: array<N>

    ghost predicate Valid() {
      data.Length == Size(Counts(bounds))
    }

    constructor Create(bounds: seq<SafeArrayBound>)
      ensures Valid() && this.bounds == bounds && fresh(data)
    {
      this.bounds := bounds;
      var size := 1;
      for i := 0 to |bounds|
        invariant size == Product(Counts(bounds)[..i])
      {
        size := size * bounds[i].cElements;
        assert Front(Counts(bounds)[..i + 1]) == Counts(bounds)[..i];
      }
      assert Counts(bounds)[..|bounds|] == Counts(bounds);
      SizeIsProduct(Counts(bounds));
      data := new N[size];
    }

    function GetLBound(dim: nat): int
      requires 1 <= dim <= |bounds|
    {
      bounds[dim - 1].lLbound
    }

    function GetUBound(dim: nat): int
      requires 1 <= dim <= |bounds|
    {
      bounds[dim - 1].lLbound + bounds[dim - 1].cElements - 1
    }
  }

  function Mapped<A, B>(f: A -> B, s: seq<A>): (r: seq<B>)
    ensures |r| == |s|
    ensures forall i | 0 <= i < |s| :: r[i] == f(s[i])
  {
    seq(|s|, i requires 0 <= i < |s| => f(s[i]))
  }

  lemma MappedInverse<A, B>(f: A -> B, g: B -> A, s: seq<A>)
    requires forall x :: g(f(x)) == x
    ensures Mapped(g, Mapped(f, s)) == s
  {
  }

  lemma MappedConcat<A, B>(f: A -> B, s: seq<A>, t: seq<A>)
    ensures Mapped(f, s + t) == Mapped(f, s) + Mapped(f, t)
  {
  }

  // ---------------------------------------------------------------- Java to native

  class ToNative<J, N(0)> {
    const javaArray: Nested<J>
    const toNative: J -> N
    const dim: nat
    const bounds: array<SafeArrayBound>
    const psa: SafeArray<N>
    var pDst: nat  // index of the next free element in psa.data

    ghost const shape: seq<nat>

    ghost predicate Valid()
      reads bounds
    {
      && bounds as object != psa.data
      && dim == bounds.Length == |shape| && dim > 0
      && (forall i | 0 <= i < dim :: bounds[i].cElements == shape[i])
      && psa.data.Length == Size(shape)
    }

    constructor (javaArray: Nested<J>, toNative: J -> N)
      requires javaArray.Arr?
      ensures Valid() && this.javaArray == javaArray && this.toNative == toNative
      ensures shape == Bounds(javaArray) && Counts(psa.bounds) == shape
      ensures pDst == 0 && fresh(psa.data)
    {
      this.javaArray := javaArray;
      this.toNative := toNative;
      var n := GetArrayDimension(javaArray);
      dim := n;
      var b := FillBounds(javaArray, n);
      bounds := b;
      assert Counts(b[..]) == Bounds(javaArray);
      shape := Bounds(javaArray);
      var created := new SafeArray<N>.Create(b[..]);
      psa := created;
      pDst := 0;
    }

    /** Depth along first elements, stopping at an empty array. */
    static method GetArrayDimension(javaArray: Nested<J>) returns (dim: nat)
      ensures dim == |Bounds(javaArray)|
    {
      var a := javaArray;
      dim := 0;
      while a.Arr?
        invariant dim + |Bounds(a)| == |Bounds(javaArray)|
        decreases a
      {
        dim := dim + 1;
        if |a.elems| > 0 {
          a := a.elems[0];
        } else {
          return;
        }
      }
    }

    static lemma OutermostBound(a: Nested<J>)
      requires a.Arr?
      ensures |Bounds(a)| > 0 && Bounds(a)[|Bounds(a)| - 1] == |a.elems|
      ensures |Bounds(a)| > 1 ==> a.elems != [] && a.elems[0].Arr? && Bounds(a.elems[0]) == Bounds(a)[..|Bounds(a)| - 1]
    {
      assert Bounds(a)[..|Bounds(a)| - 1] == if a.elems == [] then [] else Bounds(a.elems[0]);
    }

    static method FillBounds(javaArray: Nested<J>, n: nat) returns (bounds: array<SafeArrayBound>)
      requires javaArray.Arr? && n == |Bounds(javaArray)|
      ensures fresh(bounds) && bounds.Length == n
      ensures forall i | 0 <= i < n :: bounds[i] == SafeArrayBound(0, Bounds(javaArray)[i])
    {
      bounds := new SafeArrayBound[n];
      ghost var found := Bounds(javaArray);
      var a := javaArray;
      var i := n - 1;
      while true
        invariant 0 <= i < n && a.Arr?
        invariant Bounds(a) == found[..i + 1]
        invariant forall k | i < k < n :: bounds[k] == SafeArrayBound(0, found[k])
        decreases i
      {
        OutermostBound(a);
        bounds[i] := SafeArrayBound(0, |a.elems|);
        if i <= 0 {
          break;
        }
        assert found[..i + 1][..i] == found[..i];
        a := a.elems[0];
        i := i - 1;
      }
    }

    method GetNative() returns (r: SafeArray<N>)
      requires Valid() && pDst == 0 && shape == Bounds(javaArray)
      requires Covers(javaArray, shape)
      modifies this`pDst, psa.data
      ensures r == psa && Valid()
      ensures r.data[..] == Mapped(toNative, Flat(javaArray, shape))
      ensures pDst == r.data.Length
    {
      assert shape[..dim] == shape;
      ToNativeRec(javaArray, dim - 1);
      r := psa;
      assert r.data[..] == r.data[0..pDst];
    }

    /** Nothing has changed from this place on. */
    static ghost predicate SameBehind(data: seq<N>, was: seq<N>, from: nat) {
      |data| == |was| && from <= |data| && data[from..] == was[from..]
    }

    /** Writes the elements of one (sub)array at the cursor and moves it behind them. */
    method ToNativeRec(a: Nested<J>, curDim: nat)
      requires Valid() && curDim < dim
      requires Covers(a, shape[..curDim + 1])
      requires pDst + Size(shape[..curDim + 1]) <= psa.data.Length
      modifies this`pDst, psa.data
      ensures pDst == old(pDst) + Size(shape[..curDim + 1])
      ensures psa.data[old(pDst)..pDst] == Mapped(toNative, Flat(a, shape[..curDim + 1]))
      ensures psa.data[..old(pDst)] == old(psa.data[..pDst]) && SameBehind(psa.data[..], old(psa.data[..]), pDst)
      decreases curDim
    {
      ghost var dims := shape[..curDim + 1];
      ghost var inner := Front(dims);
      ghost var start := pDst;
      ghost var before, was := psa.data[..pDst], psa.data[..];
      assert inner == shape[..curDim] && Last(dims) == bounds[curDim].cElements;
      if curDim == 0 {
        WriteElements(a);
      } else {
        for i := 0 to bounds[curDim].cElements
          invariant pDst == start + RowsSize(inner, i)
          invariant start + RowsSize(inner, Last(dims)) <= psa.data.Length
          invariant pDst <= psa.data.Length
          invariant psa.data[start..pDst] == Mapped(toNative, FlatRows(a, dims, i))
          invariant psa.data[..start] == before && SameBehind(psa.data[..], was, pDst)
        {
          RowsMonotone(inner, i + 1, Last(dims));
          ghost var mid, written, now := pDst, psa.data[..pDst], psa.data[..];
          ToNativeRec(a.elems[i], curDim - 1);
          StillSame(psa.data[..], now, was, pDst, mid);
          Appended(psa.data[..], written, start, mid, pDst, FlatRows(a, dims, i), Flat(a.elems[i], inner));
        }
      }
    }

    /** The innermost dimension: one element per turn. */
    method WriteElements(a: Nested<J>)
      requires Valid()
      requires Covers(a, shape[..1])
      requires pDst + Size(shape[..1]) <= psa.data.Length
      modifies this`pDst, psa.data
      ensures pDst == old(pDst) + Size(shape[..1])
      ensures psa.data[old(pDst)..pDst] == Mapped(toNative, Flat(a, shape[..1]))
      ensures psa.data[..old(pDst)] == old(psa.data[..pDst]) && SameBehind(psa.data[..], old(psa.data[..]), pDst)
    {
      ghost var dims := shape[..1];
      ghost var start := pDst;
      ghost var before, was := psa.data[..pDst], psa.data[..];
      for i := 0 to bounds[0].cElements
        invariant pDst == start + RowsSize([], i)
        invariant start + RowsSize([], Last(dims)) <= psa.data.Length
        invariant pDst <= psa.data.Length
        invariant psa.data[start..pDst] == Mapped(toNative, FlatRows(a, dims, i))
        invariant psa.data[..start] == before && SameBehind(psa.data[..], was, pDst)
      {
        RowsMonotone([], i + 1, Last(dims));
        ghost var mid, written := pDst, psa.data[..pDst];
        psa.data[pDst] := toNative(a.elems[i].value);
        pDst := pDst + 1;
        Appended(psa.data[..], written, start, mid, pDst, FlatRows(a, dims, i), Flat(a.elems[i], []));
      }
    }

    lemma StillSame(data: seq<N>, now: seq<N>, was: seq<N>, end: nat, mid: nat)
      requires SameBehind(data, now, end) && SameBehind(now, was, mid) && mid <= end
      ensures SameBehind(data, was, end)
    {
      forall k | 0 <= k < |data| - end
        ensures data[end..][k] == was[end..][k]
      {
        assert now[end..][k] == now[end + k] == now[mid..][end + k - mid];
        assert was[mid..][end + k - mid] == was[end + k];
      }
    }

    /** What was written before `mid` and what was written behind it, seen together. */
    lemma Appended(data: seq<N>, written: seq<N>, start: nat, mid: nat, end: nat, rows: seq<J>, row: seq<J>)
      requires start <= mid <= end <= |data| && |written| == mid
      requires data[..mid] == written
      requires written[start..] == Mapped(toNative, rows)
      requires data[mid..end] == Mapped(toNative, row)
      ensures data[start..end] == Mapped(toNative, rows + row)
      ensures data[..start] == written[..start]
    {
      MappedConcat(toNative, rows, row);
      assert data[start..end] == data[..mid][start..] + data[mid..end];
    }
  }

  // ---------------------------------------------------------------- native to Java

  class ToJava<N(0), J> {
    const psa: SafeArray<N>
    const toJava: N -> J
    const dimSizes: array<int>

    ghost const shape: seq<nat>

    ghost predicate Valid()
      reads dimSizes
    {
      && shape == Counts(psa.bounds)
      && psa.data.Length == Size(shape)
      && dimSizes.Length == |shape| > 0
      && forall i | 0 <= i < |shape| :: dimSizes[i] == shape[i]
    }

    constructor (psa: SafeArray<N>, toJava: N -> J)
      requires psa.Valid() && |psa.bounds| > 0
      ensures Valid() && this.psa == psa && this.toJava == toJava && fresh(dimSizes)
    {
      this.psa := psa;
      this.toJava := toJava;
      shape := Counts(psa.bounds);
      var sizes := FillDimSizes(psa);
      dimSizes := sizes;
    }

    /** The sizes come back from the lower and upper bounds, whatever the lower bound is. */
    static method FillDimSizes(psa: SafeArray<N>) returns (dimSizes: array<int>)
      ensures fresh(dimSizes) && dimSizes.Length == |psa.bounds|
      ensures forall i | 0 <= i < |psa.bounds| :: dimSizes[i] == psa.bounds[i].cElements
    {
      dimSizes := new int[|psa.bounds|];
      for i := 1 to |psa.bounds| + 1
        invariant forall k | 0 <= k < i - 1 :: dimSizes[k] == psa.bounds[k].cElements
      {
        var lbound, ubound := psa.GetLBound(i), psa.GetUBound(i);
        dimSizes[i - 1] := if ubound - lbound + 1 > 0 then ubound - lbound + 1 else 0;
      }
    }

    /** The cursor starts at the first element and ends behind the last one. */
    method GetJava() returns (r: Nested<J>, pSrc: nat)
      requires Valid()
      ensures r == Nest(Mapped(toJava, psa.data[..]), Counts(psa.bounds))
      ensures pSrc == psa.data.Length
    {
      assert shape[..|shape|] == shape;
      assert psa.data[0..psa.data.Length] == psa.data[..];
      r, pSrc := ToJavaRec(0, dimSizes.Length - 1);
    }

    /** Rebuilds one (sub)array from the cursor on and returns the cursor behind it. */
    method ToJavaRec(pSrc: nat, curDim: nat) returns (r: Nested<J>, pSrc': nat)
      requires Valid() && curDim < dimSizes.Length
      requires pSrc + Size(shape[..curDim + 1]) <= psa.data.Length
      ensures pSrc' == pSrc + Size(shape[..curDim + 1])
      ensures r == Nest(Mapped(toJava, psa.data[pSrc..pSrc']), shape[..curDim + 1])
      decreases curDim
    {
      ghost var dims := shape[..curDim + 1];
      ghost var inner := Front(dims);
      assert inner == shape[..curDim] && Last(dims) == dimSizes[curDim];
      if curDim == 0 {
        r, pSrc' := ReadElements(pSrc);
      } else {
        pSrc' := pSrc;
        var pDst := new Nested<J>[dimSizes[curDim]](_ => Arr([]));
        for i := 0 to dimSizes[curDim]
          invariant pSrc' == pSrc + RowsSize(inner, i) <= psa.data.Length
          invariant pDst[..i] == NestRows(Mapped(toJava, psa.data[pSrc..pSrc']), inner, i)
        {
          RowsMonotone(inner, i + 1, Last(dims));
          ghost var mid := pSrc';
          var e;
          e, pSrc' := ToJavaRec(pSrc', curDim - 1);
          pDst[i] := e;
          RowAppended(psa.data[..], pSrc, mid, pSrc', inner, i);
          assert pDst[..i + 1] == pDst[..i] + [pDst[i]];
        }
        r := Arr(pDst[..]);
        assert pDst[..dimSizes[curDim]] == pDst[..];
      }
    }

    /** The innermost dimension: one element per turn. */
    method ReadElements(pSrc: nat) returns (r: Nested<J>, pSrc': nat)
      requires Valid()
      requires pSrc + Size(shape[..1]) <= psa.data.Length
      ensures pSrc' == pSrc + Size(shape[..1])
      ensures r == Nest(Mapped(toJava, psa.data[pSrc..pSrc']), shape[..1])
    {
      pSrc' := pSrc;
      var pDst := new Nested<J>[dimSizes[0]](_ => Arr([]));
      for i := 0 to dimSizes[0]
        invariant pSrc' == pSrc + RowsSize([], i) <= psa.data.Length
        invariant pDst[..i] == NestRows(Mapped(toJava, psa.data[pSrc..pSrc']), [], i)
      {
        RowsMonotone([], i + 1, Last(shape[..1]));
        ghost var mid := pSrc';
        pDst[i] := Leaf(toJava(psa.data[pSrc']));
        pSrc' := pSrc' + 1;
        RowAppended(psa.data[..], pSrc, mid, pSrc', [], i);
        assert pDst[..i + 1] == pDst[..i] + [pDst[i]];
      }
      r := Arr(pDst[..]);
      assert pDst[..dimSizes[0]] == pDst[..];
    }

    lemma RowAppended(data: seq<N>, start: nat, mid: nat, end: nat, inner: seq<nat>, n: nat)
      requires start <= mid <= end <= |data|
      requires mid - start == RowsSize(inner, n) && end - mid == Size(inner)
      ensures |Mapped(toJava, data[start..end])| == RowsSize(inner, n + 1)
      ensures NestRows(Mapped(toJava, data[start..end]), inner, n + 1)
           == NestRows(Mapped(toJava, data[start..mid]), inner, n) + [Nest(Mapped(toJava, data[mid..end]), inner)]
    {
      var all := Mapped(toJava, data[start..end]);
      assert all[..mid - start] == Mapped(toJava, data[start..mid]);
      assert all[mid - start..] == Mapped(toJava, data[mid..end]);
    }
  }

  // ---------------------------------------------------------------- both ways

  lemma ConvertedBack<J, N>(a: Nested<J>, f: J -> N, g: N -> J, bounds: seq<nat>)
    requires Rectangular(a, bounds)
    requires forall x :: g(f(x)) == x
    ensures Covers(a, Bounds(a))
    ensures Nest(Mapped(g, Mapped(f, Flat(a, Bounds(a)))), Bounds(a)) == a
  {
    FoundBounds(a, bounds);
    RectangularCovers(a, Bounds(a));
    MappedInverse(f, g, Flat(a, Bounds(a)));
    NestFlat(a, Bounds(a));
  }

  /** Java to SAFEARRAY and back gives the array back, for every rectangular
      array of any depth and any extents, when the transducers are inverse. */
  method ThereAndBack<J, N(0)>(a: Nested<J>, toNative: J -> N, toJava: N -> J, ghost bounds: seq<nat>)
    returns (r: Nested<J>)
    requires a.Arr? && Rectangular(a, bounds)
    requires forall x :: toJava(toNative(x)) == x
    ensures r == a
  {
    ConvertedBack(a, toNative, toJava, bounds);
    var there := new ToNative(a, toNative);
    var psa := there.GetNative();
    var back := new ToJava(psa, toJava);
    var end;
    r, end := back.GetJava();
  }

  /** The native element at SAFEARRAY indices `ix` is the converted Java element
      `a[i_{n-1}]...[i_0]`, and the data holds exactly the product of the bounds. */
  method ElementsKeepTheirIndices<J, N(0)>(a: Nested<J>, toNative: J -> N, ghost ix: seq<nat>)
    returns (psa: SafeArray<N>)
    requires a.Arr? && Covers(a, Bounds(a)) && InRange(ix, Bounds(a))
    ensures psa.data.Length == Product(Bounds(a)) && Offset(ix, Bounds(a)) < psa.data.Length
    ensures psa.data[Offset(ix, Bounds(a))] == toNative(At(a, ix, Bounds(a)))
  {
    var there := new ToNative(a, toNative);
    psa := there.GetNative();
    SizeIsProduct(Bounds(a));
    IndexFormula(a, ix, Bounds(a));
    assert psa.data[..][Offset(ix, Bounds(a))] == toNative(At(a, ix, Bounds(a)));
  }
}

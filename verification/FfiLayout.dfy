/** How libffi lays out aggregate types: a recursive walk over a graph of type
    objects that fills in sizes and alignments, and the least layout that C
    allows, which is what it has to produce. */
module FfiLayout {
  import opened Arithmetic
  import opened Bits
  import opened FfiAlign

  datatype Option<T> = None | Some(value: T)
  datatype Layout = Layout(size: nat, alignment: nat)

  datatype Kind =
    | Void | Int | Float | Double | LongDouble
    | UInt8 | SInt8 | UInt16 | SInt16 | UInt32 | SInt32 | UInt64 | SInt64
    | Struct | Pointer

  ghost predicate Sound(l: Layout) {
    l.size > 0 && IsPow2(l.alignment)
  }

  ghost predicate AllSound(es: seq<Layout>) {
    forall i | 0 <= i < |es| :: Sound(es[i])
  }

  // ---------------------------------------------------------------- the least C layout

  /** Size and alignment of fields placed one after the other, without tail padding. */
  ghost function Packed(es: seq<Layout>): (p: Layout)
    requires AllSound(es)
    ensures if es == [] then p == Layout(0, 0) else Sound(p)
  {
    if es == [] then Layout(0, 0)
    else
      var n := |es| - 1;
      var p, e := Packed(es[..n]), es[n];
      Layout(RoundUp(p.size, e.alignment) + e.size, if p.alignment > e.alignment then p.alignment else e.alignment)
  }

  /** The alignment of the whole is the strictest one of a field. */
  lemma {:induction false} PackedAlignment(es: seq<Layout>) returns (k: nat)
    requires es != [] && AllSound(es)
    ensures k < |es| && Packed(es).alignment == es[k].alignment
    ensures forall i | 0 <= i < |es| :: es[i].alignment <= Packed(es).alignment
  {
    var n := |es| - 1;
    k := n;
    if n > 0 {
      var k' := PackedAlignment(es[..n]);
      assert forall i | 0 <= i < n :: es[..n][i] == es[i];
      if es[k'].alignment > es[n].alignment {
        k := k';
      }
    } else {
      PositivePow2(es[0].alignment);
    }
  }

  lemma PositivePow2(a: int)
    requires IsPow2(a)
    ensures a > 0
  {}

  /** The layout of an aggregate, if it has any elements. */
  ghost function Structure(es: seq<Layout>): (r: Option<Layout>)
    requires AllSound(es)
    ensures r.Some? <==> es != []
    ensures r.Some? ==> Sound(r.value) && r.value.size >= Packed(es).size
  {
    if es == [] then None
    else Some(Layout(RoundUp(Packed(es).size, Packed(es).alignment), Packed(es).alignment))
  }

  ghost function Offset(es: seq<Layout>, i: nat): nat
    requires i < |es| && AllSound(es)
  {
    RoundUp(Packed(es[..i]).size, es[i].alignment)
  }

  /** Fields in order, aligned and disjoint. */
  ghost predicate InOrder(es: seq<Layout>, offsets: seq<nat>)
    requires AllSound(es)
  {
    && |offsets| == |es|
    && (forall i | 0 <= i < |es| :: es[i].alignment > 0 && Multiple(offsets[i], es[i].alignment))
    && (forall i, j | 0 <= i < j < |es| :: offsets[i] + es[i].size <= offsets[j])
  }

  /** Such fields inside an object whose size and alignment are such that
      arrays of it keep every field aligned. */
  ghost predicate CLayout(es: seq<Layout>, offsets: seq<nat>, total: Layout)
    requires AllSound(es)
  {
    && InOrder(es, offsets)
    && total.alignment > 0 && Multiple(total.size, total.alignment)
    && (forall i | 0 <= i < |es| :: Multiple(total.alignment, es[i].alignment))
    && (forall i | 0 <= i < |es| :: offsets[i] + es[i].size <= total.size)
  }

  ghost predicate Placed(es: seq<Layout>, offsets: seq<nat>)
    requires AllSound(es)
  {
    |offsets| == |es| && forall i | 0 <= i < |es| :: offsets[i] == Offset(es, i)
  }

  lemma {:induction false} PackedStep(es: seq<Layout>, i: nat)
    requires i < |es| && AllSound(es)
    ensures Packed(es[..i + 1]).size == Offset(es, i) + es[i].size
  {
    assert es[..i + 1][..i] == es[..i];
  }

  lemma {:induction false} PackedGrows(es: seq<Layout>, i: nat, j: nat)
    requires i <= j <= |es| && AllSound(es)
    ensures Packed(es[..i]).size <= Packed(es[..j]).size
    decreases j
  {
    if i < j {
      PackedGrows(es, i, j - 1);
      PackedStep(es, j - 1);
    }
  }

  lemma {:induction false} Pow2Divides(i: nat, j: nat)
    requires i <= j
    ensures Multiple(Pow2(j), Pow2(i))
    decreases j
  {
    if i < j {
      Pow2Divides(i, j - 1);
      MultipleSum(Pow2(j - 1), Pow2(j - 1), Pow2(i));
    }
  }

  lemma SmallerPow2Divides(a: nat, b: nat)
    requires IsPow2(a) && IsPow2(b) && a <= b
    ensures a > 0 && Multiple(b, a)
  {
    var i: nat :| a == Pow2(i);
    var j: nat :| b == Pow2(j);
    if j < i {
      Pow2Monotone(j, i);
    }
    Pow2Divides(i, j);
  }

  /** What the walk computes is a C layout: every field aligned, no overlap,
      tail padding up to the strictest alignment. */
  lemma {:induction false} StructureIsCLayout(es: seq<Layout>, offsets: seq<nat>)
    requires es != [] && AllSound(es) && Placed(es, offsets)
    ensures CLayout(es, offsets, Structure(es).value)
  {
    var total := Structure(es).value;
    RoundUpIsLeastMultiple(Packed(es).size, total.alignment);
    forall i | 0 <= i < |es|
      ensures es[i].alignment > 0 && Multiple(offsets[i], es[i].alignment) && Multiple(total.alignment, es[i].alignment)
    {
      FieldAligned(es, i);
    }
    forall i | 0 <= i < |es|
      ensures offsets[i] + es[i].size <= total.size
    {
      PackedStep(es, i);
      PackedGrows(es, i + 1, |es|);
      assert es[..|es|] == es;
    }
    forall i, j | 0 <= i < j < |es|
      ensures offsets[i] + es[i].size <= offsets[j]
    {
      PackedStep(es, i);
      PackedGrows(es, i + 1, j);
    }
  }

  lemma FieldAligned(es: seq<Layout>, i: nat)
    requires i < |es| && AllSound(es)
    ensures es[i].alignment > 0 && Multiple(Offset(es, i), es[i].alignment)
    ensures Multiple(Packed(es).alignment, es[i].alignment)
  {
    var _ := PackedAlignment(es);
    RoundUpIsLeastMultiple(Packed(es[..i]).size, es[i].alignment);
    SmallerPow2Divides(es[i].alignment, Packed(es).alignment);
  }

  lemma {:induction false} OffsetsAreLeast(es: seq<Layout>, offsets: seq<nat>, i: nat)
    requires i < |es| && AllSound(es) && InOrder(es, offsets)
    ensures Offset(es, i) <= offsets[i]
  {
    if i > 0 {
      OffsetsAreLeast(es, offsets, i - 1);
      PackedStep(es, i - 1);
    }
    NoEarlierField(es, i, offsets[i]);
  }

  lemma NoEarlierField(es: seq<Layout>, i: nat, offset: nat)
    requires i < |es| && AllSound(es) && es[i].alignment > 0
    requires Multiple(offset, es[i].alignment) && Packed(es[..i]).size <= offset
    ensures Offset(es, i) <= offset
  {
    RoundUpIsLeastMultiple(Packed(es[..i]).size, es[i].alignment);
    LeastIsUnique(Offset(es, i), offset, Packed(es[..i]).size, es[i].alignment);
  }

  /** And no C layout of the same fields in the same order is smaller in any
      offset, in its size or in its alignment. */
  lemma {:induction false} StructureIsLeast(es: seq<Layout>, offsets: seq<nat>, total: Layout)
    requires es != [] && AllSound(es) && CLayout(es, offsets, total)
    ensures forall i | 0 <= i < |es| :: Offset(es, i) <= offsets[i]
    ensures Structure(es).value.alignment <= total.alignment
    ensures Structure(es).value.size <= total.size
  {
    forall i | 0 <= i < |es|
      ensures Offset(es, i) <= offsets[i]
    {
      OffsetsAreLeast(es, offsets, i);
    }
    var n := |es| - 1;
    var p := Packed(es);
    assert es[..n + 1] == es;
    PackedStep(es, n);
    var k := PackedAlignment(es);
    RoundUpIsLeastMultiple(p.size, p.alignment);
    MultipleOfMultiple(total.size, p.alignment, total.alignment);
    LeastIsUnique(Structure(es).value.size, total.size, p.size, p.alignment);
  }

  // ---------------------------------------------------------------- the walk

  /** The sizes and alignments of the descriptors at one moment. */
  type Sizes = map<FfiType, Layout>

  /** A descriptor with a size has a proper alignment, one without is zeroed. */
  ghost predicate Sane(g: Sizes) {
    forall t | t in g :: g[t] == Layout(0, 0) || Sound(g[t])
  }

  /** A type descriptor. `elements` ends where the C array has its NULL;
      descriptors may be shared, and `rank` says that they form no cycle. */
  class FfiType {
    var size: nat
    var alignment: nat
    const kind: Kind
    const elements: seq<FfiType>
    ghost const rank: nat

    constructor (kind: Kind, size: nat, alignment: nat, elements: seq<FfiType>, ghost rank: nat)
      ensures this.kind == kind && this.size == size && this.alignment == alignment
      ensures this.elements == elements && this.rank == rank
    {
      this.kind, this.size, this.alignment, this.elements := kind, size, alignment, elements;
      this.rank := rank;
    }

    ghost predicate Acyclic()
      decreases rank
    {
      forall e | e in elements :: e.rank < rank && e.Acyclic()
    }

    ghost function At(g: Sizes): Layout {
      if this in g then g[this] else Layout(0, 0)
    }

    /** The layout the graph below this node stands for, with these sizes in it. */
    ghost function LayoutOf(g: Sizes): (r: Option<Layout>)
      requires Acyclic() && Sane(g)
      ensures r.Some? ==> Sound(r.value)
      decreases rank, 1, 0
    {
      if At(g).size != 0 then Some(At(g))
      else match Prefix(g, |elements|)
        case None => None
        case Some(ls) => Structure(ls)
    }

    /** The layouts of the first `n` elements, if all of them have one. */
    ghost function Prefix(g: Sizes, n: nat): (r: Option<seq<Layout>>)
      requires Acyclic() && Sane(g) && n <= |elements|
      ensures r.Some? ==> |r.value| == n && AllSound(r.value)
      decreases rank, 0, n
    {
      if n == 0 then Some([])
      else match (Prefix(g, n - 1), elements[n - 1].LayoutOf(g))
        case (Some(ls), Some(l)) => Some(ls + [l])
        case _ => None
    }

    /** An aggregate without elements somewhere among the types to be laid out. */
    ghost predicate HasEmpty(g: Sizes)
      requires Acyclic() && Sane(g)
      decreases rank
    {
      At(g).size == 0 && (elements == [] || exists e | e in elements :: e.HasEmpty(g))
    }

    /** As it was, or laid out. */
    ghost predicate Settled(g: Sizes)
      reads this
      requires Acyclic() && Sane(g)
    {
      Layout(size, alignment) == At(g) || LayoutOf(g) == Some(Layout(size, alignment))
    }

    /** What a walk leaves that fails at element `n`: the ones before it are counted. */
    ghost predicate AbandonedAt(g: Sizes, h: Sizes, n: nat)
      requires Acyclic() && Sane(g)
    {
      && At(g).size == 0 && n <= |elements| && Prefix(g, n).Some?
      && (if n < |elements| then elements[n].LayoutOf(g).None? else n == 0)
      && At(h) == Packed(Prefix(g, n).value)
    }

    /** What preparing types leaves of a descriptor: it is as it was, laid out,
        or abandoned; only one without a layout can be abandoned. */
    ghost predicate Fate(g: Sizes, h: Sizes)
      requires Acyclic() && Sane(g)
    {
      || At(h) == At(g)
      || LayoutOf(g) == Some(At(h))
      || (LayoutOf(g).None? && exists n :: AbandonedAt(g, h, n))
    }

    /** The descriptors on the way down to the empty aggregate are all abandoned. */
    ghost predicate FailedWalk(g: Sizes, h: Sizes)
      requires Acyclic() && Sane(g)
      decreases rank
    {
      exists n: nat :: AbandonedAt(g, h, n) && (n < |elements| ==> elements[n].FailedWalk(g, h))
    }

    lemma {:induction false} PrefixFails(g: Sizes, n: nat, k: nat)
      requires Acyclic() && Sane(g) && n < k <= |elements| && elements[n].LayoutOf(g).None?
      ensures Prefix(g, k).None?
      decreases k
    {
      if n < k - 1 {
        PrefixFails(g, n, k - 1);
      }
    }

    /** A walk that fails at element `n` has failed, and is abandoned there. */
    lemma FailsAt(g: Sizes, h: Sizes, n: nat)
      requires Acyclic() && Sane(g) && AbandonedAt(g, h, n) && (n < |elements| ==> elements[n].FailedWalk(g, h))
      ensures LayoutOf(g).None? && FailedWalk(g, h) && Fate(g, h)
    {
      if n < |elements| {
        PrefixFails(g, n, |elements|);
      }
    }

    lemma {:induction false} PrefixElements(g: Sizes, k: nat, i: nat)
      requires Acyclic() && Sane(g) && i < k <= |elements| && Prefix(g, k).Some?
      ensures elements[i].LayoutOf(g) == Some(Prefix(g, k).value[i])
      decreases k
    {
      if i < k - 1 {
        PrefixElements(g, k - 1, i);
      }
    }

    lemma {:induction false} PrefixSucceeds(g: Sizes, k: nat)
      requires Acyclic() && Sane(g) && k <= |elements| && forall i | 0 <= i < k :: elements[i].LayoutOf(g).Some?
      ensures Prefix(g, k).Some?
      decreases k
    {
      if k > 0 {
        PrefixSucceeds(g, k - 1);
      }
    }

    lemma Counted(g: Sizes, n: nat, l: Layout)
      requires Acyclic() && Sane(g) && n < |elements| && Prefix(g, n).Some? && elements[n].LayoutOf(g) == Some(l)
      ensures IsPow2(l.alignment) && Prefix(g, n + 1).Some?
      ensures var p := Packed(Prefix(g, n).value);
              Packed(Prefix(g, n + 1).value)
              == Layout(RoundUp(p.size, l.alignment) + l.size,
                        if p.alignment > l.alignment then p.alignment else l.alignment)
    {
      var ls := Prefix(g, n).value;
      assert (ls + [l])[..n] == ls;
    }

    /** One turn of the loop in `initialize_aggregate`, for an element that has its layout. */
    method CountElement(n: nat, ghost g: Sizes)
      requires Acyclic() && Sane(g) && n < |elements| && elements[n] != this
      requires elements[n].LayoutOf(g) == Some(Layout(elements[n].size, elements[n].alignment))
      requires Prefix(g, n).Some? && Layout(size, alignment) == Packed(Prefix(g, n).value)
      modifies this
      ensures Prefix(g, n + 1).Some? && Layout(size, alignment) == Packed(Prefix(g, n + 1).value)
    {
      var e := elements[n];
      Counted(g, n, Layout(e.size, e.alignment));
      size := AlignTo(size, e.alignment);
      size := size + e.size;
      alignment := if alignment > e.alignment then alignment else e.alignment;
    }

    /** The only thing that makes a type graph unacceptable is an empty aggregate. */
    lemma {:induction false} FailsIffEmpty(g: Sizes)
      requires Acyclic() && Sane(g)
      ensures LayoutOf(g).None? <==> HasEmpty(g)
      decreases rank
    {
      if At(g).size == 0 {
        forall e | e in elements
          ensures e.LayoutOf(g).None? <==> e.HasEmpty(g)
        {
          e.FailsIffEmpty(g);
        }
        if i :| 0 <= i < |elements| && elements[i].LayoutOf(g).None? {
          PrefixFails(g, i, |elements|);
          assert elements[i] in elements;
        } else {
          PrefixSucceeds(g, |elements|);
        }
      }
    }

    /** The layout of an aggregate is the least C layout of its elements' layouts. */
    lemma {:induction false} LeastLayout(g: Sizes, offsets: seq<nat>)
      requires Acyclic() && Sane(g) && At(g).size == 0 && LayoutOf(g).Some?
      ensures Prefix(g, |elements|).Some?
      ensures var ls := Prefix(g, |elements|).value;
              && (forall i | 0 <= i < |ls| :: elements[i].LayoutOf(g) == Some(ls[i]))
              && (Placed(ls, offsets) ==> CLayout(ls, offsets, LayoutOf(g).value))
              && forall others, total | CLayout(ls, others, total) ::
                   LayoutOf(g).value.size <= total.size && LayoutOf(g).value.alignment <= total.alignment
    {
      var ls := Prefix(g, |elements|).value;
      forall i | 0 <= i < |ls|
        ensures elements[i].LayoutOf(g) == Some(ls[i])
      {
        PrefixElements(g, |elements|, i);
      }
      if Placed(ls, offsets) {
        StructureIsCLayout(ls, offsets);
      }
      forall others, total | CLayout(ls, others, total)
        ensures LayoutOf(g).value.size <= total.size && LayoutOf(g).value.alignment <= total.alignment
      {
        StructureIsLeast(ls, others, total);
      }
    }

    // -------------------------------------------------------------- preparing again

    /** Following first elements from here, one comes to an empty aggregate
        without meeting a size. */
    ghost predicate Doomed(g: Sizes)
      requires Acyclic()
      decreases rank
    {
      At(g).size == 0 && (elements == [] || elements[0].Doomed(g))
    }

    /** How many first elements without a size there are before one with a size. */
    ghost function ZeroDepth(g: Sizes): nat
      requires Acyclic()
      decreases rank
    {
      if At(g).size != 0 || elements == [] then 0 else 1 + elements[0].ZeroDepth(g)
    }

    lemma {:induction false} DoomedHasNoLayout(g: Sizes)
      requires Acyclic() && Sane(g) && Doomed(g)
      ensures LayoutOf(g).None?
      decreases rank
    {
      if elements != [] {
        elements[0].DoomedHasNoLayout(g);
        PrefixFails(g, 0, |elements|);
      }
    }

    /** A doomed descriptor has no size yet and gets none. */
    lemma DoomedKeepsSize(g: Sizes, h: Sizes)
      requires Acyclic() && Sane(g) && Doomed(g) && Fate(g, h)
      ensures At(h).size == 0
    {
      DoomedHasNoLayout(g);
      if n :| AbandonedAt(g, h, n) && n > 0 {
        elements[0].DoomedHasNoLayout(g);
        PrefixFails(g, 0, n);
      }
    }

    /** No preparation of anything changes whether a descriptor is doomed. */
    lemma {:induction false} StaysDoomedIff(graph: set<FfiType>, g: Sizes, h: Sizes)
      requires Closed(graph) && this in graph && Sane(g) && forall t | t in graph :: t.Fate(g, h)
      ensures Doomed(h) <==> Doomed(g)
      decreases rank
    {
      if elements != [] {
        elements[0].StaysDoomedIff(graph, g, h);
      }
      if Doomed(g) {
        DoomedKeepsSize(g, h);
      } else if At(g).size != 0 {
        assert At(h) == At(g);
      }
    }

    /** A failed walk that is not doomed leaves a size further up. */
    lemma {:induction false} FailureClimbs(graph: set<FfiType>, g: Sizes, h: Sizes)
      requires Closed(graph) && this in graph && Sane(g) && FailedWalk(g, h) && !Doomed(g)
      ensures ZeroDepth(h) < ZeroDepth(g)
      decreases rank
    {
      var n: nat :| AbandonedAt(g, h, n) && (n < |elements| ==> elements[n].FailedWalk(g, h));
      if n == 0 {
        elements[0].FailureClimbs(graph, g, h);
      }
    }
  }

  ghost predicate Closed(graph: set<FfiType>) {
    forall t | t in graph :: t.Acyclic() && forall e | e in t.elements :: e in graph
  }

  /** The sizes as they are now. */
  ghost function Now(graph: set<FfiType>): Sizes
    reads graph
  {
    map t | t in graph :: Layout(t.size, t.alignment)
  }

  ghost predicate SettledUpTo(graph: set<FfiType>, rank: nat, g: Sizes)
    requires Closed(graph) && Sane(g)
    reads graph
  {
    forall t | t in graph && t.rank <= rank :: t.Settled(g)
  }

  ghost predicate OthersSettled(graph: set<FfiType>, arg: FfiType, g: Sizes)
    requires Closed(graph) && Sane(g)
    reads graph - {arg}
  {
    forall t | t in graph - {arg} && t.rank <= arg.rank :: t.Settled(g)
  }

  ghost predicate FatesUpTo(graph: set<FfiType>, rank: nat, g: Sizes, h: Sizes)
    requires Closed(graph) && Sane(g)
  {
    forall t | t in graph && t.rank <= rank :: t.Fate(g, h)
  }

  /** `initialize_aggregate`, on sizes that are those of `g` as far as they are
      settled: succeeds exactly when a layout exists and then leaves it in the
      descriptor, with every other descriptor either untouched or laid out; a
      failure abandons the descriptors on the way down to the empty aggregate. */
  method InitializeAggregate(arg: FfiType, ghost graph: set<FfiType>, ghost g: Sizes) returns (ok: bool)
    requires Closed(graph) && Sane(g) && arg in graph && SettledUpTo(graph, arg.rank, g)
    requires arg.size == 0
    modifies set t | t in graph && t.rank <= arg.rank
    ensures ok <==> arg.LayoutOf(g).Some?
    ensures ok ==> arg.LayoutOf(g) == Some(Layout(arg.size, arg.alignment)) && SettledUpTo(graph, arg.rank, g)
    ensures !ok ==> arg.FailedWalk(g, Now(graph)) && FatesUpTo(graph, arg.rank, g, Now(graph))
    decreases arg.rank, 1
  {
    ok := CountElements(arg, graph, g);
    if ok {
      arg.size := AlignTo(arg.size, arg.alignment);
      ok := arg.size != 0;
      if !ok {
        arg.FailsAt(g, Now(graph), 0);
      }
    }
  }

  /** Its loop. */
  method CountElements(arg: FfiType, ghost graph: set<FfiType>, ghost g: Sizes) returns (ok: bool)
    requires Closed(graph) && Sane(g) && arg in graph && OthersSettled(graph, arg, g)
    requires arg.size == arg.alignment == arg.At(g).size == 0
    modifies set t | t in graph && t.rank <= arg.rank
    ensures ok ==> OthersSettled(graph, arg, g) && Counts(arg, g, |arg.elements|)
    ensures !ok ==>
              && arg.LayoutOf(g).None? && arg.FailedWalk(g, Now(graph))
              && FatesUpTo(graph, arg.rank, g, Now(graph))
    decreases arg.rank, 0, |arg.elements| + 1
  {
    var ptr := 0;
    while ptr < |arg.elements|
      invariant ptr <= |arg.elements| && Counts(arg, g, ptr) && OthersSettled(graph, arg, g)
    {
      ok := NextElement(arg, ptr, graph, g);
      if !ok {
        return;
      }
      ptr := ptr + 1;
    }
    ok := true;
  }

  /** The first `n` elements are counted. */
  ghost predicate Counts(arg: FfiType, g: Sizes, n: nat)
    requires arg.Acyclic() && Sane(g) && n <= |arg.elements|
    reads arg
  {
    arg.Prefix(g, n).Some? && Layout(arg.size, arg.alignment) == Packed(arg.Prefix(g, n).value)
  }

  /** One turn: the element is laid out if it has no size, and counted. */
  method NextElement(arg: FfiType, ptr: nat, ghost graph: set<FfiType>, ghost g: Sizes) returns (ok: bool)
    requires Closed(graph) && Sane(g) && arg in graph && OthersSettled(graph, arg, g)
    requires arg.At(g).size == 0 && ptr < |arg.elements| && Counts(arg, g, ptr)
    modifies set t | t in graph && t.rank <= arg.rank
    ensures ok ==> OthersSettled(graph, arg, g) && Counts(arg, g, ptr + 1)
    ensures !ok ==>
              && arg.LayoutOf(g).None? && arg.FailedWalk(g, Now(graph))
              && FatesUpTo(graph, arg.rank, g, Now(graph))
    decreases arg.rank, 0, |arg.elements|
  {
    ok := InitializeElement(arg, arg.elements[ptr], graph, g);
    if ok {
      arg.CountElement(ptr, g);
    } else {
      arg.FailsAt(g, Now(graph), ptr);
    }
  }

  /** The guard on an element of an aggregate: only one without a size is laid out. */
  method InitializeElement(arg: FfiType, e: FfiType, ghost graph: set<FfiType>, ghost g: Sizes) returns (ok: bool)
    requires Closed(graph) && Sane(g) && arg in graph && e in arg.elements && OthersSettled(graph, arg, g)
    modifies set t | t in graph && t.rank < arg.rank
    ensures ok <==> e.LayoutOf(g).Some?
    ensures ok ==> e.LayoutOf(g) == Some(Layout(e.size, e.alignment)) && OthersSettled(graph, arg, g)
    ensures !ok ==> e.FailedWalk(g, Now(graph))
    ensures !ok ==> forall t | t in graph - {arg} && t.rank <= arg.rank :: t.Fate(g, Now(graph))
    decreases arg.rank, 0, 0
  {
    ok := true;
    if e.size == 0 {
      ok := InitializeAggregate(e, graph, g);
    }
  }

  // ---------------------------------------------------------------- preparing types

  /** Every descriptor is as it was or laid out: none is abandoned. */
  ghost predicate AllLaidOut(graph: set<FfiType>, g: Sizes, h: Sizes)
    requires Closed(graph) && Sane(g)
  {
    forall t | t in graph :: t.At(h) == t.At(g) || t.LayoutOf(g) == Some(t.At(h))
  }

  ghost predicate AllFates(graph: set<FfiType>, g: Sizes, h: Sizes)
    requires Closed(graph) && Sane(g)
  {
    forall t | t in graph :: t.Fate(g, h)
  }

  /** Whatever becomes of descriptors, one with a size has a proper alignment. */
  lemma FatesAreSane(graph: set<FfiType>, g: Sizes)
    requires Closed(graph) && Sane(g) && AllFates(graph, g, Now(graph))
    ensures Sane(Now(graph))
  {
    var h := Now(graph);
    forall t | t in h
      ensures h[t] == Layout(0, 0) || Sound(h[t])
    {
      assert t.Fate(g, h) && t.At(h) == h[t];
    }
  }

  /** The guard every descriptor goes through in `ffi_prep_cif`, when others may
      have been laid out since the sizes were those of `g`. */
  method PrepareFrom(arg: FfiType, ghost graph: set<FfiType>, ghost g: Sizes) returns (ok: bool)
    requires Closed(graph) && arg in graph && Sane(g) && AllLaidOut(graph, g, Now(graph))
    modifies set t | t in graph && t.rank <= arg.rank
    ensures Sane(Now(graph)) && AllFates(graph, g, Now(graph))
    ensures ok <==> arg.LayoutOf(g).Some?
    ensures ok ==> arg.LayoutOf(g) == Some(Layout(arg.size, arg.alignment)) && AllLaidOut(graph, g, Now(graph))
    ensures !ok ==> arg.FailedWalk(g, Now(graph))
    ensures old(arg.size) != 0 ==> Now(graph) == old(Now(graph))
  {
    ok := true;
    if arg.size == 0 {
      ok := InitializeAggregate(arg, graph, g);
    }
    FatesAreSane(graph, g);
  }

  /** The same on a graph in any state. It accepts exactly a descriptor that stands for a layout with the
      sizes found; nothing is then abandoned. */
  method Prepare(arg: FfiType, ghost graph: set<FfiType>) returns (ok: bool)
    requires Closed(graph) && arg in graph && Sane(Now(graph))
    modifies set t | t in graph && t.rank <= arg.rank
    ensures Sane(Now(graph)) && AllFates(graph, old(Now(graph)), Now(graph))
    ensures ok <==> arg.LayoutOf(old(Now(graph))).Some?
    ensures ok ==>
              && arg.LayoutOf(old(Now(graph))) == Some(Layout(arg.size, arg.alignment))
              && AllLaidOut(graph, old(Now(graph)), Now(graph))
    ensures !ok ==> arg.FailedWalk(old(Now(graph)), Now(graph))
    ensures old(arg.size) != 0 ==> Now(graph) == old(Now(graph))
  {
    ok := PrepareFrom(arg, graph, Now(graph));
  }

  /** A rejected aggregate whose first element has a layout is accepted when it
      is prepared again, with the size of the elements before the failing one. */
  method RejectedThenAccepted(arg: FfiType, ghost graph: set<FfiType>) returns (first: bool, second: bool)
    requires Closed(graph) && arg in graph && Sane(Now(graph))
    requires arg.LayoutOf(Now(graph)).None?
    requires arg.elements != [] && arg.elements[0].LayoutOf(Now(graph)).Some?
    modifies set t | t in graph && t.rank <= arg.rank
    ensures !first && second && exists n :: n > 0 && arg.AbandonedAt(old(Now(graph)), Now(graph), n)
  {
    ghost var g := Now(graph);
    first := Prepare(arg, graph);
    ghost var n: nat :| arg.AbandonedAt(g, Now(graph), n);
    assert n > 0;
    second := Prepare(arg, graph);
    assert arg.AbandonedAt(g, Now(graph), n);
  }

  /** Preparing the same descriptor over and over: it is rejected every time if
      the way along first elements leads to an empty aggregate, and otherwise at
      most as often as there are first elements without a size. */
  method PrepareRepeatedly(arg: FfiType, times: nat, ghost graph: set<FfiType>) returns (accepted: seq<bool>)
    requires Closed(graph) && arg in graph && Sane(Now(graph))
    modifies set t | t in graph && t.rank <= arg.rank
    ensures |accepted| == times
    ensures arg.Doomed(old(Now(graph))) ==> forall i | 0 <= i < times :: !accepted[i]
    ensures !arg.Doomed(old(Now(graph))) ==> forall i | arg.ZeroDepth(old(Now(graph))) <= i < times :: accepted[i]
    ensures times > arg.ZeroDepth(old(Now(graph))) ==> (true !in accepted <==> arg.Doomed(old(Now(graph))))
    ensures forall i, j | 0 <= i < j < times && accepted[i] :: accepted[j]
  {
    ghost var g := Now(graph);
    accepted := [];
    for i := 0 to times
      invariant Sane(Now(graph)) && |accepted| == i
      invariant arg.Doomed(Now(graph)) <==> arg.Doomed(g)
      invariant arg.Doomed(g) ==> forall k | 0 <= k < i :: !accepted[k]
      invariant !arg.Doomed(g) ==> arg.size != 0 || arg.ZeroDepth(Now(graph)) + i <= arg.ZeroDepth(g)
      invariant forall k | 0 <= k < i && accepted[k] :: arg.size != 0
      invariant !arg.Doomed(g) ==> forall k | arg.ZeroDepth(g) <= k < i :: accepted[k]
      invariant forall k, j | 0 <= k < j < i && accepted[k] :: accepted[j]
    {
      var ok := PrepareOnce(arg, graph);
      accepted := accepted + [ok];
    }
    if times > arg.ZeroDepth(g) && !arg.Doomed(g) {
      assert accepted[arg.ZeroDepth(g)] in accepted;
    }
  }

  /** What one preparation does for the next. */
  method PrepareOnce(arg: FfiType, ghost graph: set<FfiType>) returns (ok: bool)
    requires Closed(graph) && arg in graph && Sane(Now(graph))
    modifies set t | t in graph && t.rank <= arg.rank
    ensures Sane(Now(graph)) && (arg.Doomed(Now(graph)) <==> old(arg.Doomed(Now(graph))))
    ensures ok ==> arg.size != 0
    ensures old(arg.size) != 0 ==> ok
    ensures old(arg.Doomed(Now(graph))) ==> !ok
    ensures !ok && !old(arg.Doomed(Now(graph))) ==> arg.ZeroDepth(Now(graph)) < old(arg.ZeroDepth(Now(graph)))
  {
    ghost var g := Now(graph);
    ok := Prepare(arg, graph);
    arg.StaysDoomedIff(graph, g, Now(graph));
    if arg.Doomed(g) {
      arg.DoomedHasNoLayout(g);
    } else if !ok {
      arg.FailureClimbs(graph, g, Now(graph));
    }
  }

  /** `struct outer { struct inner { int; struct {} } }`. */
  ghost predicate Nested(outer: FfiType, inner: FfiType, int4: FfiType, empty: FfiType) {
    && outer.elements == [inner] && inner.elements == [int4, empty] && int4.elements == [] && empty.elements == []
    && outer.rank == 2 && inner.rank == 1 && int4.rank == 0 && empty.rank == 0
  }

  lemma Layout4()
    ensures Sound(Layout(4, 4)) && RoundUp(4, 4) == 4 && RoundUp(0, 4) == 0
    ensures Packed([Layout(4, 4)]) == Layout(4, 4) && Structure([Layout(4, 4)]) == Some(Layout(4, 4))
  {
    assert Pow2(2) == 4;
    assert [Layout(4, 4)][..0] == [];
  }

  /** At first nothing is laid out; the walk leaves a size in the inner struct. */
  lemma NestedFails(outer: FfiType, inner: FfiType, int4: FfiType, empty: FfiType, g: Sizes)
    requires Nested(outer, inner, int4, empty) && outer.Acyclic() && Sane(g)
    requires int4.At(g) == Layout(4, 4) && empty.At(g).size == inner.At(g).size == outer.At(g).size == 0
    ensures inner.Prefix(g, 1) == Some([Layout(4, 4)]) && empty.LayoutOf(g).None?
    ensures inner.LayoutOf(g).None? && outer.LayoutOf(g).None?
  {
    assert inner.Prefix(g, 0) == Some([]);
    assert [] + [Layout(4, 4)] == [Layout(4, 4)];
    inner.PrefixFails(g, 1, 2);
    outer.PrefixFails(g, 0, 1);
  }

  lemma NestedLeaves(outer: FfiType, inner: FfiType, int4: FfiType, empty: FfiType, g: Sizes, h: Sizes)
    requires Nested(outer, inner, int4, empty) && outer.Acyclic() && Sane(g) && outer.FailedWalk(g, h)
    requires int4.At(g) == Layout(4, 4) && empty.At(g).size == inner.At(g).size == outer.At(g).size == 0
    ensures inner.At(h) == Layout(4, 4) && outer.At(h).size == 0
  {
    NestedFails(outer, inner, int4, empty, g);
    Layout4();
    var n: nat :| outer.AbandonedAt(g, h, n) && (n < 1 ==> outer.elements[n].FailedWalk(g, h));
    assert n == 0;
    var k: nat :| inner.AbandonedAt(g, h, k);
    assert int4.LayoutOf(g).Some? && k == 1;
  }

  /** The second time the size found in it is taken for its layout. */
  lemma NestedSucceeds(outer: FfiType, inner: FfiType, h: Sizes)
    requires outer.elements == [inner] && outer.Acyclic() && Sane(h)
    requires inner.At(h) == Layout(4, 4) && outer.At(h).size == 0
    ensures outer.LayoutOf(h) == Some(Layout(4, 4))
  {
    Layout4();
    assert outer.Prefix(h, 0) == Some([]);
    assert [] + [Layout(4, 4)] == [Layout(4, 4)];
    assert outer.Prefix(h, 1) == Some([Layout(4, 4)]);
  }

  /** The outer struct of such a type is rejected at first. Its first element has
      no layout either, but the size left in it is taken the second time. */
  method NestedRejected() returns (first: bool, second: bool, size: nat)
    ensures !first && second && size == 4
  {
    var empty := new FfiType(Struct, 0, 0, [], 0);
    var int4 := new FfiType(Int, 4, 4, [], 0);
    var inner := new FfiType(Struct, 0, 0, [int4, empty], 1);
    var outer := new FfiType(Struct, 0, 0, [inner], 2);
    ghost var graph := {empty, int4, inner, outer};
    Layout4();
    ghost var g := Now(graph);
    assert int4.Acyclic() && empty.Acyclic() && inner.Acyclic() && outer.Acyclic();
    first := Prepare(outer, graph);
    NestedFails(outer, inner, int4, empty, g);
    NestedLeaves(outer, inner, int4, empty, g, Now(graph));
    NestedSucceeds(outer, inner, Now(graph));
    second := Prepare(outer, graph);
    size := outer.size;
  }
}

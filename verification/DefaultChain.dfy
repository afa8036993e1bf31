/** Calls through default properties: `foo()` where the COM calls are
    `foo().bar().zot()`. The generator walks the chain of default methods to
    declare the shortcut. */
module DefaultChain {
  import opened Walk

  /** A method of the type library. `simple` says that it has one parameter, an
      out-only return value, and is no enumerator; `target` is the interface that
      value points to, if it is one that can be called by vtable. `declared` says
      that its Java declaration came out, with `overloads` more of them for
      omitted defaults. */
  datatype Method = Method(
    dispId: int, vtid: nat, simple: bool, target: Option<nat>, paramCount: nat, returnsValue: bool,
    declared: bool, overloads: nat)

  /** An interface has methods of its own and inherits those of its bases. */
  datatype Interface = Interface(methods: seq<nat>, bases: seq<nat>)

  datatype TypeLib = TypeLib(methods: map<nat, Method>, interfaces: map<nat, Interface>)

  ghost predicate WellFormed(lib: TypeLib) {
    && (forall i, m | i in lib.interfaces && m in lib.interfaces[i].methods :: m in lib.methods)
    && (forall i, b | i in lib.interfaces && b in lib.interfaces[i].bases :: b in lib.interfaces)
    && (forall m | m in lib.methods && lib.methods[m].target.Some? :: lib.methods[m].target.value in lib.interfaces)
  }

  /** The first of these methods with dispatch id 0. */
  function FirstDefault(lib: TypeLib, ms: seq<nat>): (r: Option<nat>)
    requires forall m | m in ms :: m in lib.methods
    ensures r.Some? ==> r.value in ms
  {
    if ms == [] then None
    else if lib.methods[ms[0]].dispId == 0 then Some(ms[0])
    else FirstDefault(lib, ms[1..])
  }

  /** The method at `i` is the first one with dispatch id 0; there is none if `i` is the end. */
  ghost predicate FirstZero(lib: TypeLib, ms: seq<nat>, i: nat, r: Option<nat>)
    requires forall m | m in ms :: m in lib.methods
  {
    && i <= |ms| && (forall j | 0 <= j < i :: lib.methods[ms[j]].dispId != 0)
    && (if i < |ms| then lib.methods[ms[i]].dispId == 0 && r == Some(ms[i]) else r == None)
  }

  lemma {:induction false} OnlyOneIsFirst(lib: TypeLib, ms: seq<nat>, i: nat, r: Option<nat>)
    requires forall m | m in ms :: m in lib.methods
    requires FirstZero(lib, ms, i, r)
    ensures FirstDefault(lib, ms) == r
  {
    if i > 0 {
      assert lib.methods[ms[0]].dispId != 0;
      OnlyOneIsFirst(lib, ms[1..], i - 1, r);
    }
  }

  /** `DefaultMethodFinder.doGetDefaultMethod`: looks at the own methods in their order. */
  method GetDefaultMethod(lib: TypeLib, intf: nat) returns (r: Option<nat>)
    requires WellFormed(lib) && intf in lib.interfaces
    ensures r == FirstDefault(lib, lib.interfaces[intf].methods)
    ensures exists i: nat :: FirstZero(lib, lib.interfaces[intf].methods, i, r)
  {
    var ms := lib.interfaces[intf].methods;
    for i := 0 to |ms|
      invariant forall j | 0 <= j < i :: lib.methods[ms[j]].dispId != 0
    {
      if lib.methods[ms[i]].dispId == 0 {
        r := Some(ms[i]);
        assert FirstZero(lib, ms, i, r);
        OnlyOneIsFirst(lib, ms, i, r);
        return;
      }
    }
    r := None;
    assert FirstZero(lib, ms, |ms|, r);
    OnlyOneIsFirst(lib, ms, |ms|, r);
  }

  /** Where the walk goes from a method. */
  datatype Hop = Stop | NoDefault | Next(through: nat, to: nat)

  function HopFrom(lib: TypeLib, m: nat): (h: Hop)
    requires WellFormed(lib) && m in lib.methods
    ensures h.Next? ==> h.through in lib.interfaces && h.to in lib.methods
  {
    var d := lib.methods[m];
    if !d.simple || d.target.None? then Stop
    else match FirstDefault(lib, lib.interfaces[d.target.value].methods)
      case None => NoDefault
      case Some(to) => Next(d.target.value, to)
  }

  /** The walk goes on from a simple method whose result points to an interface,
      to the first of the interface's own methods with dispatch id 0. */
  lemma HopIs(lib: TypeLib, m: nat, through: nat, to: nat)
    requires WellFormed(lib) && m in lib.methods
    ensures HopFrom(lib, m) == Next(through, to) <==>
              && lib.methods[m].simple && lib.methods[m].target == Some(through)
              && exists i: nat :: FirstZero(lib, lib.interfaces[through].methods, i, Some(to))
    ensures HopFrom(lib, m) == NoDefault <==>
              && lib.methods[m].simple && lib.methods[m].target.Some?
              && forall k | k in lib.interfaces[lib.methods[m].target.value].methods :: lib.methods[k].dispId != 0
  {
    if lib.methods[m].target.Some? {
      var ms := lib.interfaces[lib.methods[m].target.value].methods;
      var i := FirstOne(lib, ms);
      forall k, r | FirstZero(lib, ms, k, r)
        ensures r == FirstDefault(lib, ms)
      {
        OnlyOneIsFirst(lib, ms, k, r);
      }
    }
  }

  lemma {:induction false} FirstOne(lib: TypeLib, ms: seq<nat>) returns (i: nat)
    requires forall m | m in ms :: m in lib.methods
    ensures FirstZero(lib, ms, i, FirstDefault(lib, ms))
  {
    i := 0;
    if ms != [] && lib.methods[ms[0]].dispId != 0 {
      var k := FirstOne(lib, ms[1..]);
      i := k + 1;
      assert forall j | 0 < j < i :: ms[j] == ms[1..][j - 1];
    }
  }

  /** The hops of all methods that have one. */
  function Hops(lib: TypeLib): map<nat, nat>
    requires WellFormed(lib)
  {
    map m | m in lib.methods && HopFrom(lib, m).Next? :: HopFrom(lib, m).to
  }

  /** A walk from `chain[0]` whose hops pass through these interfaces. */
  ghost predicate Route(lib: TypeLib, chain: seq<nat>, through: seq<nat>)
    requires WellFormed(lib)
  {
    && |chain| == |through| + 1 && (forall m | m in chain :: m in lib.methods)
    && forall n | 0 <= n < |through| :: HopFrom(lib, chain[n]) == Next(through[n], chain[n + 1])
  }

  /** A walk that cannot go on. */
  ghost predicate FullRoute(lib: TypeLib, chain: seq<nat>, through: seq<nat>)
    requires WellFormed(lib)
  {
    Route(lib, chain, through) && !HopFrom(lib, chain[|chain| - 1]).Next?
  }

  lemma RouteIsPath(lib: TypeLib, chain: seq<nat>, through: seq<nat>)
    requires WellFormed(lib) && Route(lib, chain, through)
    ensures Path(Hops(lib), chain)
  {
    var next := Hops(lib);
    forall n | 0 <= n < |chain| - 1
      ensures chain[n] in next && next[chain[n]] == chain[n + 1]
    {
      assert chain[n] in chain && HopFrom(lib, chain[n]) == Next(through[n], chain[n + 1]);
    }
  }

  /** The interfaces a walk passes through. */
  lemma {:induction false} PathHasRoute(lib: TypeLib, chain: seq<nat>) returns (through: seq<nat>)
    requires WellFormed(lib) && Path(Hops(lib), chain) && chain[0] in lib.methods
    ensures Route(lib, chain, through)
  {
    through := [];
    if |chain| > 1 {
      var n := |chain| - 1;
      through := PathHasRoute(lib, chain[..n]);
      assert chain[n - 1] in Hops(lib);
      through := through + [HopFrom(lib, chain[n - 1]).through];
      assert chain == chain[..n] + [chain[n]];
    }
  }

  /** The walk of the generator from a method ends exactly if it comes to no
      method twice; nothing is asked of the rest of the library. */
  lemma EndsIffNoMethodTwice(lib: TypeLib, start: nat)
    requires WellFormed(lib) && start in lib.methods
    ensures (exists chain, through :: FullRoute(lib, chain, through) && chain[0] == start)
       <==> !Revisits(Hops(lib), start)
  {
    EndsIffNeverRevisits(Hops(lib), start);
    if Ends(Hops(lib), start) {
      var end :| EndsAfter(Hops(lib), start, end);
      var chain := WalkPath(Hops(lib), start, end);
      var through := PathHasRoute(lib, chain);
      assert FullRoute(lib, chain, through);
    }
    if chain, through :| FullRoute(lib, chain, through) && chain[0] == start {
      RouteIsPath(lib, chain, through);
      PathWalks(Hops(lib), chain, |chain| - 1);
      assert EndsAfter(Hops(lib), start, |chain| - 1);
    }
  }

  /** It has one end: there are no two chains. */
  lemma ChainIsUnique(lib: TypeLib, chain: seq<nat>, through: seq<nat>, chain': seq<nat>, through': seq<nat>)
    requires WellFormed(lib) && FullRoute(lib, chain, through) && FullRoute(lib, chain', through')
    requires chain[0] == chain'[0]
    ensures chain == chain' && through == through'
  {
    RouteIsPath(lib, chain, through);
    RouteIsPath(lib, chain', through');
    PathWalks(Hops(lib), chain, |chain| - 1);
    PathWalks(Hops(lib), chain', |chain'| - 1);
    EndIsUnique(Hops(lib), chain[0], |chain| - 1, |chain'| - 1);
    forall n | 0 <= n < |chain|
      ensures chain[n] == chain'[n]
    {
      SamePath(Hops(lib), chain, chain', n);
    }
    forall n | 0 <= n < |through|
      ensures through[n] == through'[n]
    {
      assert HopFrom(lib, chain[n]) == Next(through[n], chain[n + 1]);
      assert HopFrom(lib, chain'[n]) == Next(through'[n], chain'[n + 1]);
    }
  }

  // ---------------------------------------------------------------- the generator

  /** The declared shortcut: `through` goes into the annotation, the signature is that of `last`. */
  datatype Facade = Facade(vtid: nat, through: seq<nat>, last: nat)

  /** When a shortcut is declared for this chain. */
  predicate Declares(lib: TypeLib, chain: seq<nat>)
    requires WellFormed(lib) && |chain| > 0 && chain[|chain| - 1] in lib.methods
  {
    var last := chain[|chain| - 1];
    |chain| > 1 && HopFrom(lib, last).Stop? && lib.methods[last].paramCount >= 2 && lib.methods[last].returnsValue
  }

  /** `generateDefaultInterfaceFacade` on a chain that ends. */
  method GenerateFacade(lib: TypeLib, ghost chain: seq<nat>, ghost through: seq<nat>, start: nat)
    returns (f: Option<Facade>)
    requires WellFormed(lib) && FullRoute(lib, chain, through) && chain[0] == start
    ensures f.Some? <==> Declares(lib, chain)
    ensures f.Some? <==>
              var last := lib.methods[chain[|through|]];
              |through| > 0 && (!last.simple || last.target.None?) && last.paramCount >= 2 && last.returnsValue
    ensures f.Some? ==> f.value == Facade(lib.methods[start].vtid, through, chain[|through|])
  {
    var m := start;
    var intermediates: seq<nat> := [];
    while true
      invariant intermediates <= through && m == chain[|intermediates|]
      decreases |through| - |intermediates|
    {
      ghost var n := |intermediates|;
      assert n < |through| ==> HopFrom(lib, chain[n]) == Next(through[n], chain[n + 1]);
      if !lib.methods[m].simple {
        break;
      }
      if lib.methods[m].target.None? {
        break;
      }
      var intf := lib.methods[m].target.value;
      var dm := GetDefaultMethod(lib, intf);
      if dm.None? {
        return None;
      }
      m := dm.value;
      intermediates := intermediates + [intf];
    }
    if intermediates == [] || lib.methods[m].paramCount < 2 || !lib.methods[m].returnsValue {
      return None;
    }
    f := Some(Facade(lib.methods[start].vtid, intermediates, m));
  }
}

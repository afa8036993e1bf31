/** The run-time side of calls through default properties: the declarations are
    looked up again by reflection, and every call walks the chain on live objects. */
module DefaultedComMethod {
  import opened DefaultChain
  import opened Walk

  // ---------------------------------------------------------------- looking up declarations

  /** A Java declaration of a method, with some of its defaults omitted. */
  datatype Declaration = Declaration(of: nat, omitted: nat)

  /** A way up from an interface to one it inherits from. */
  ghost predicate Upwards(lib: TypeLib, path: seq<nat>) {
    && path != [] && (forall i | i in path :: i in lib.interfaces)
    && forall k | 0 <= k < |path| - 1 :: path[k + 1] in lib.interfaces[path[k]].bases
  }

  ghost predicate Inherits(lib: TypeLib, intf: nat, m: nat) {
    exists path :: Upwards(lib, path) && path[0] == intf && m in lib.interfaces[path[|path| - 1]].methods
  }

  /** The declarations a Java interface has, inherited ones included. */
  ghost predicate Member(lib: TypeLib, intf: nat, d: Declaration) {
    && d.of in lib.methods && lib.methods[d.of].declared && d.omitted <= lib.methods[d.of].overloads
    && Inherits(lib, intf, d.of)
  }

  /** What `getMethods` may return: all members, in any order. */
  ghost predicate Listing(lib: TypeLib, intf: nat, ds: seq<Declaration>) {
    forall d :: d in ds <==> Member(lib, intf, d)
  }

  ghost predicate Listings(lib: TypeLib, through: seq<nat>, dss: seq<seq<Declaration>>) {
    |dss| == |through| && forall n | 0 <= n < |through| :: Listing(lib, through[n], dss[n])
  }

  /** `@DefaultMethod` is printed on every declaration of a method with dispatch id 0. */
  predicate Annotated(lib: TypeLib, d: Declaration) {
    d.of in lib.methods && lib.methods[d.of].dispId == 0
  }

  /** The first annotated declaration. */
  function FirstAnnotated(lib: TypeLib, ds: seq<Declaration>): (r: Option<Declaration>)
    ensures r.Some? ==> r.value in ds && Annotated(lib, r.value)
    ensures r.None? <==> forall d | d in ds :: !Annotated(lib, d)
  {
    if ds == [] then None
    else if Annotated(lib, ds[0]) then Some(ds[0])
    else FirstAnnotated(lib, ds[1..])
  }

  /** `DefaultedComMethod.findDefaultMethod`. */
  method FindDefaultMethod(lib: TypeLib, ds: seq<Declaration>) returns (r: Option<Declaration>)
    ensures r == FirstAnnotated(lib, ds)
    ensures r.Some? ==>
              exists i :: 0 <= i < |ds| && r.value == ds[i] && Annotated(lib, ds[i])
                          && forall j | 0 <= j < i :: !Annotated(lib, ds[j])
  {
    for i := 0 to |ds|
      invariant FirstAnnotated(lib, ds) == FirstAnnotated(lib, ds[i..])
      invariant forall j | 0 <= j < i :: !Annotated(lib, ds[j])
    {
      if Annotated(lib, ds[i]) {
        return Some(ds[i]);
      }
    }
    r := None;
  }

  /** The vtable indices of the methods called on the way, and the last declaration. */
  datatype Resolution = Missing | Resolved(vtids: seq<nat>, last: Declaration)

  /** What looking through these listings gives: nothing if one has no annotated
      member, else the index of the shortcut and those of the members found,
      except that the last one found is called with arguments. */
  ghost predicate Resolves(lib: TypeLib, vtid: nat, dss: seq<seq<Declaration>>, r: Resolution)
    requires |dss| > 0
  {
    match r
    case Missing => exists n :: 0 <= n < |dss| && FirstAnnotated(lib, dss[n]).None?
    case Resolved(vtids, last) =>
      && (forall n | 0 <= n < |dss| :: FirstAnnotated(lib, dss[n]).Some?)
      && |vtids| == |dss| && vtids[0] == vtid
      && (forall n | 0 < n < |dss| :: vtids[n] == lib.methods[FirstAnnotated(lib, dss[n - 1]).value.of].vtid)
      && FirstAnnotated(lib, dss[|dss| - 1]) == Some(last)
  }

  /** The constructor of `DefaultedComMethod`; `dss` is what `getMethods` returns
      on the interfaces of the annotation. */
  method Resolve(lib: TypeLib, f: Facade, dss: seq<seq<Declaration>>) returns (r: Resolution)
    requires |dss| == |f.through| > 0
    ensures Resolves(lib, f.vtid, dss, r)
  {
    var vtid := f.vtid;
    var vtids: seq<nat> := [];
    var last: Option<Declaration> := None;
    for idx := 0 to |f.through|
      invariant |vtids| == idx
      invariant forall n | 0 <= n < idx :: FirstAnnotated(lib, dss[n]).Some?
      invariant idx == 0 ==> vtid == f.vtid
      invariant idx > 0 ==>
                  && vtids[0] == f.vtid && last == FirstAnnotated(lib, dss[idx - 1])
                  && vtid == lib.methods[last.value.of].vtid
      invariant forall n | 0 < n < idx :: vtids[n] == lib.methods[FirstAnnotated(lib, dss[n - 1]).value.of].vtid
    {
      vtids := vtids + [vtid];
      last := FindDefaultMethod(lib, dss[idx]);
      if last.None? {
        return Missing;
      }
      vtid := lib.methods[last.value.of].vtid;
    }
    r := Resolved(vtids, last.value);
  }

  /** This declaration serves as well as the method the generator found: it is
      called through the same vtable entry, and if it is the last one, it is the
      full declaration whose parameters the shortcut has. */
  predicate Serves(lib: TypeLib, found: nat, last: bool, d: Declaration)
    requires d.of in lib.methods && found in lib.methods
  {
    if last then d == Declaration(found, 0) else lib.methods[d.of].vtid == lib.methods[found].vtid
  }

  /** The declaration found first serves. */
  predicate FirstServes(lib: TypeLib, found: nat, last: bool, ds: seq<Declaration>)
    requires found in lib.methods
  {
    var d := FirstAnnotated(lib, ds);
    d.Some? && Serves(lib, found, last, d.value)
  }

  /** The interface has an annotated member, and every such member serves. */
  ghost predicate AllServe(lib: TypeLib, found: nat, last: bool, intf: nat)
    requires found in lib.methods
  {
    && (exists d :: Member(lib, intf, d) && Annotated(lib, d))
    && forall d | Member(lib, intf, d) && Annotated(lib, d) :: Serves(lib, found, last, d)
  }

  /** What the run-time finds serves for every hop. */
  ghost predicate SameChain(lib: TypeLib, chain: seq<nat>, dss: seq<seq<Declaration>>)
    requires (forall m | m in chain :: m in lib.methods) && |chain| == |dss| + 1
  {
    forall n | 0 <= n < |dss| :: FirstServes(lib, chain[n + 1], n + 1 == |dss|, dss[n])
  }

  ghost predicate Unambiguous(lib: TypeLib, chain: seq<nat>, through: seq<nat>)
    requires (forall m | m in chain :: m in lib.methods) && |chain| == |through| + 1
  {
    forall n | 0 <= n < |through| :: AllServe(lib, chain[n + 1], n + 1 == |through|, through[n])
  }

  /** Whatever order the members of this interface come in, the first one serves. */
  ghost predicate AnyFirstServes(lib: TypeLib, found: nat, last: bool, intf: nat)
    requires found in lib.methods
  {
    forall ds | Listing(lib, intf, ds) :: FirstServes(lib, found, last, ds)
  }

  /** Whatever order `getMethods` has, the run-time finds what serves. */
  ghost predicate AlwaysSameChain(lib: TypeLib, chain: seq<nat>, through: seq<nat>)
    requires (forall m | m in chain :: m in lib.methods) && |chain| == |through| + 1
  {
    forall dss | Listings(lib, through, dss) :: SameChain(lib, chain, dss)
  }

  /** Any annotated member may come first. */
  lemma AnyFirstServesIff(lib: TypeLib, found: nat, last: bool, intf: nat)
    requires found in lib.methods
    ensures AnyFirstServes(lib, found, last, intf) <==> AllServe(lib, found, last, intf)
  {
    if AnyFirstServes(lib, found, last, intf) {
      var ds := SomeListing(lib, intf);
      assert FirstServes(lib, found, last, ds);
      forall d | Member(lib, intf, d) && Annotated(lib, d)
        ensures Serves(lib, found, last, d)
      {
        assert Listing(lib, intf, [d] + ds);
      }
    }
  }

  /** The chain found by the generator and the chain called at run time are the
      same, whatever order `getMethods` has, exactly if every interface passed
      through has an annotated member and none that does not serve. */
  lemma SameChainIffUnambiguous(lib: TypeLib, chain: seq<nat>, through: seq<nat>)
    requires (forall m | m in chain :: m in lib.methods) && |chain| == |through| + 1
    ensures AlwaysSameChain(lib, chain, through) <==> Unambiguous(lib, chain, through)
  {
    if Unambiguous(lib, chain, through) {
      forall dss, n | Listings(lib, through, dss) && 0 <= n < |through|
        ensures FirstServes(lib, chain[n + 1], n + 1 == |through|, dss[n])
      {
        assert AllServe(lib, chain[n + 1], n + 1 == |through|, through[n]);
        AnyFirstServesIff(lib, chain[n + 1], n + 1 == |through|, through[n]);
      }
    }
    if AlwaysSameChain(lib, chain, through) {
      forall n | 0 <= n < |through|
        ensures AllServe(lib, chain[n + 1], n + 1 == |through|, through[n])
      {
        SameAtOneHop(lib, chain, through, n);
        AnyFirstServesIff(lib, chain[n + 1], n + 1 == |through|, through[n]);
      }
    }
  }

  lemma SameAtOneHop(lib: TypeLib, chain: seq<nat>, through: seq<nat>, n: nat)
    requires (forall m | m in chain :: m in lib.methods) && |chain| == |through| + 1 && n < |through|
    requires AlwaysSameChain(lib, chain, through)
    ensures AnyFirstServes(lib, chain[n + 1], n + 1 == |through|, through[n])
  {
    var all := SomeListings(lib, through);
    forall ds | Listing(lib, through[n], ds)
      ensures FirstServes(lib, chain[n + 1], n + 1 == |through|, ds)
    {
      var dss := all[n := ds];
      assert Listings(lib, through, dss);
      assert SameChain(lib, chain, dss);
      assert FirstServes(lib, chain[n + 1], n + 1 == |dss|, dss[n]);
    }
  }

  lemma SomeListing(lib: TypeLib, intf: nat) returns (ds: seq<Declaration>)
    ensures Listing(lib, intf, ds)
  {
    var all := set m, k | m in lib.methods && 0 <= k <= lib.methods[m].overloads :: Declaration(m, k);
    var members := set d | d in all && Member(lib, intf, d);
    forall d
      ensures d in members <==> Member(lib, intf, d)
    {
    }
    ds := InSomeOrder(members);
  }

  lemma {:induction false} InSomeOrder(s: set<Declaration>) returns (ds: seq<Declaration>)
    ensures forall d :: d in ds <==> d in s
  {
    ds := [];
    if s != {} {
      var x :| x in s;
      var rest := InSomeOrder(s - {x});
      ds := [x] + rest;
    }
  }

  lemma {:induction false} SomeListings(lib: TypeLib, through: seq<nat>) returns (dss: seq<seq<Declaration>>)
    ensures Listings(lib, through, dss)
  {
    dss := [];
    if through != [] {
      var init := SomeListings(lib, through[..|through| - 1]);
      var last := SomeListing(lib, through[|through| - 1]);
      dss := init + [last];
    }
  }

  /** What the two come to on a chain: a shortcut, if one is to be declared;
      and where the interfaces passed through are unambiguous, it resolves to the
      vtable indices of the methods the generator found, and the last call is made
      with the parameters of the shortcut. */
  ghost predicate Agree(lib: TypeLib, chain: seq<nat>, through: seq<nat>, f: Option<Facade>, r: Resolution)
    requires WellFormed(lib) && Route(lib, chain, through)
  {
    && (f.Some? <==> Declares(lib, chain))
    && (f.Some? ==> f.value == Facade(lib.methods[chain[0]].vtid, through, chain[|through|]))
    && (f.Some? && Unambiguous(lib, chain, through) ==>
          r == Resolved(Vtids(lib, chain[..|through|]), Declaration(chain[|through|], 0)))
  }

  /** Generator and run-time in sequence, from any method whose walk ends, for
      any order of the members. */
  method GenerateAndResolve(lib: TypeLib, start: nat, listing: map<nat, seq<Declaration>>)
    returns (f: Option<Facade>, r: Resolution)
    requires WellFormed(lib) && start in lib.methods && !Revisits(Hops(lib), start)
    requires forall i | i in lib.interfaces :: i in listing && Listing(lib, i, listing[i])
    ensures exists chain, through ::
              FullRoute(lib, chain, through) && chain[0] == start && Agree(lib, chain, through, f, r)
  {
    ghost var chain, through := TheChain(lib, start);
    f := GenerateFacade(lib, chain, through, start);
    r := Missing;
    if f.Some? {
      RouteInLibrary(lib, chain, through);
      var dss := Looked(listing, f.value.through);
      r := Resolve(lib, f.value, dss);
      if Unambiguous(lib, chain, through) {
        SameChainIffUnambiguous(lib, chain, through);
        assert Listings(lib, through, dss);
        ResolvedAsFound(lib, chain, dss, r);
      }
    }
    assert Agree(lib, chain, through, f, r);
  }

  lemma TheChain(lib: TypeLib, start: nat) returns (chain: seq<nat>, through: seq<nat>)
    requires WellFormed(lib) && start in lib.methods && !Revisits(Hops(lib), start)
    ensures FullRoute(lib, chain, through) && chain[0] == start
  {
    EndsIffNoMethodTwice(lib, start);
    chain, through :| FullRoute(lib, chain, through) && chain[0] == start;
  }

  lemma RouteInLibrary(lib: TypeLib, chain: seq<nat>, through: seq<nat>)
    requires WellFormed(lib) && Route(lib, chain, through)
    ensures forall i | i in through :: i in lib.interfaces
  {
    forall n | 0 <= n < |through|
      ensures through[n] in lib.interfaces
    {
      assert HopFrom(lib, chain[n]) == Next(through[n], chain[n + 1]);
    }
  }

  /** `[propget, id(0)] Item(i)` and `[propput, id(0)] Item(i, v)` in the
      interface that method 0 returns: the shortcut has the parameters of the
      getter, and the run-time may call the setter. */
  const READ_WRITE := TypeLib(
    map[0 := Method(7, 7, true, Some(0), 1, true, true, 0),
        1 := Method(0, 8, false, None, 2, true, true, 0),
        2 := Method(0, 9, false, None, 2, false, true, 0)],
    map[0 := Interface([1, 2], [])])

  lemma ReadWriteShortcut()
    ensures WellFormed(READ_WRITE) && FullRoute(READ_WRITE, [0, 1], [0]) && Declares(READ_WRITE, [0, 1])
  {
    assert HopFrom(READ_WRITE, 0) == Next(0, 1);
  }

  lemma ReadWriteMembers(d: Declaration)
    ensures Member(READ_WRITE, 0, d) <==> d in [Declaration(1, 0), Declaration(2, 0)]
  {
    var lib := READ_WRITE;
    if d.of in [1, 2] {
      assert Upwards(lib, [0]) && d.of in lib.interfaces[[0][|[0]| - 1]].methods;
    }
    if path :| Upwards(lib, path) && path[0] == 0 && d.of in lib.interfaces[path[|path| - 1]].methods {
      assert path[|path| - 1] in path;
    }
  }

  lemma SetterForGetter(ds: seq<Declaration>)
    requires ds == [Declaration(1, 0), Declaration(2, 0)] || ds == [Declaration(2, 0), Declaration(1, 0)]
    ensures Listing(READ_WRITE, 0, ds)
    ensures FirstServes(READ_WRITE, 1, true, ds) <==> ds[0] == Declaration(1, 0)
    ensures !AllServe(READ_WRITE, 1, true, 0)
  {
    forall d
      ensures d in ds <==> Member(READ_WRITE, 0, d)
    {
      ReadWriteMembers(d);
    }
    assert Annotated(READ_WRITE, ds[0]);
    assert Member(READ_WRITE, 0, Declaration(2, 0)) && Annotated(READ_WRITE, Declaration(2, 0));
  }

  lemma ResolvedAsFound(lib: TypeLib, chain: seq<nat>, dss: seq<seq<Declaration>>, r: Resolution)
    requires (forall m | m in chain :: m in lib.methods) && |chain| == |dss| + 1 > 1
    requires SameChain(lib, chain, dss) && Resolves(lib, lib.methods[chain[0]].vtid, dss, r)
    ensures r == Resolved(Vtids(lib, chain[..|dss|]), Declaration(chain[|dss|], 0))
  {
    assert forall n | 0 <= n < |dss| :: FirstServes(lib, chain[n + 1], n + 1 == |dss|, dss[n]);
    var vtids := r.vtids;
    forall n | 0 <= n < |dss|
      ensures vtids[n] == lib.methods[chain[n]].vtid
    {
      if n > 0 {
        assert FirstServes(lib, chain[n - 1 + 1], n - 1 + 1 == |dss|, dss[n - 1]);
      }
    }
    assert vtids == Vtids(lib, chain[..|dss|]);
    assert FirstServes(lib, chain[|dss| - 1 + 1], true, dss[|dss| - 1]);
  }

  function Vtids(lib: TypeLib, chain: seq<nat>): seq<nat>
    requires forall m | m in chain :: m in lib.methods
  {
    seq(|chain|, n requires 0 <= n < |chain| => lib.methods[chain[n]].vtid)
  }

  function Looked(listing: map<nat, seq<Declaration>>, through: seq<nat>): seq<seq<Declaration>>
    requires forall i | i in through :: i in listing
  {
    seq(|through|, n requires 0 <= n < |through| => listing[through[n]])
  }

  // ---------------------------------------------------------------- calls on live objects

  /** A call on a live object: of a default property, or the last one, which gets
      the arguments of the shortcut. */
  datatype Call = Default(obj: int, vtid: nat) | WithArguments(obj: int, declaration: Declaration)

  /** The reference counts of all objects, and the calls made on them in their order. */
  class Com {
    var counts: map<int, int>
    var log: seq<Call>
    /** What a call of the method with this vtable index on this object returns;
        one that is not here throws. */
    const answer: map<(int, nat), int>

    constructor (counts: map<int, int>, answer: map<(int, nat), int>)
      ensures this.counts == counts && this.answer == answer && log == []
    {
      this.counts, this.answer, log := counts, answer, [];
    }

    function Count(p: int): int
      reads this
    {
      if p in counts then counts[p] else 0
    }

    method AddRef(p: int)
      modifies this
      ensures forall q :: Count(q) == old(Count(q)) + (if q == p then 1 else 0)
      ensures log == old(log)
    {
      counts := counts[p := Count(p) + 1];
    }

    method Release(p: int)
      requires Count(p) > 0
      modifies this
      ensures forall q :: Count(q) == old(Count(q)) - (if q == p then 1 else 0)
      ensures log == old(log)
    {
      counts := counts[p := Count(p) - 1];
    }

    /** A call of a default property on a live object; the result comes with a
        reference of its own. */
    method Invoke(p: int, vtid: nat) returns (r: Option<int>)
      requires Count(p) > 0
      modifies this
      ensures r.Some? <==> (p, vtid) in answer
      ensures r.Some? ==> r.value == answer[(p, vtid)]
      ensures forall q :: Count(q) == old(Count(q)) + (if r == Some(q) then 1 else 0)
      ensures log == old(log) + [Default(p, vtid)]
    {
      log := log + [Default(p, vtid)];
      r := None;
      if (p, vtid) in answer {
        r := Some(answer[(p, vtid)]);
        AddRef(r.value);
      }
    }

    /** The call with arguments on a live object. */
    method InvokeLast(p: int, last: Declaration)
      requires Count(p) > 0
      modifies this
      ensures counts == old(counts) && log == old(log) + [WithArguments(p, last)]
    {
      log := log + [WithArguments(p, last)];
    }
  }

  /** `DefaultedComMethod.invoke`, whose last call either succeeds or throws. The
      default properties are called in the order of their indices, the first on
      `ptr` and each later one on what the call before returned, up to one that
      throws; if none does, the call with arguments goes to what the last one
      returned. Every object is alive when it is called. A successful call leaves
      all reference counts as they were, and one that throws leaves exactly one
      reference too many, on the object it had got to. */
  method Invoke(com: Com, ptr: int, vtids: seq<nat>, last: Declaration, lastSucceeds: bool)
    returns (ok: bool, ghost calls: seq<Call>)
    requires forall q :: com.Count(q) >= 0
    modifies com
    ensures com.log == old(com.log) + calls && 0 < |calls| <= |vtids| + 1 && calls[0].obj == ptr
    ensures forall k | 0 <= k < |calls| ::
              calls[k] == if k < |vtids| then Default(calls[k].obj, vtids[k]) else WithArguments(calls[k].obj, last)
    ensures forall k | 0 <= k < |calls| - 1 ::
              (calls[k].obj, vtids[k]) in com.answer && com.answer[(calls[k].obj, vtids[k])] == calls[k + 1].obj
    ensures |calls| <= |vtids| ==> (calls[|calls| - 1].obj, vtids[|calls| - 1]) !in com.answer
    ensures ok <==> |calls| == |vtids| + 1 && lastSucceeds
    ensures forall q :: com.Count(q) == old(com.Count(q)) + (if !ok && q == calls[|calls| - 1].obj then 1 else 0)
  {
    com.AddRef(ptr);
    var p := ptr;
    calls := [];
    for i := 0 to |vtids|
      invariant com.log == old(com.log) + calls && |calls| == i
      invariant forall k | 0 <= k < i :: calls[k] == Default(calls[k].obj, vtids[k])
      invariant forall k | 0 <= k < i :: (calls[k].obj, vtids[k]) in com.answer
      invariant p == if i == 0 then ptr else com.answer[(calls[i - 1].obj, vtids[i - 1])]
      invariant forall k | 0 <= k < i - 1 :: com.answer[(calls[k].obj, vtids[k])] == calls[k + 1].obj
      invariant i > 0 ==> calls[0].obj == ptr
      invariant forall q :: com.Count(q) == old(com.Count(q)) + (if q == p then 1 else 0)
    {
      var newPtr := com.Invoke(p, vtids[i]);
      calls := calls + [Default(p, vtids[i])];
      if newPtr.None? {
        return false, calls;
      }
      com.Release(p);
      p := newPtr.value;
    }
    com.InvokeLast(p, last);
    calls := calls + [WithArguments(p, last)];
    ok := lastSucceeds;
    if ok {
      com.Release(p);
    }
  }

  /** The calls of a shortcut on this chain: each method of the chain before the
      last is called in its turn, the first on `ptr` and each later one on what
      the call before returned, up to one that throws; if none does, the full
      declaration of the last one gets the arguments, on the object got to. */
  ghost predicate AlongChain(
    lib: TypeLib, chain: seq<nat>, answer: map<(int, nat), int>, ptr: int, calls: seq<Call>)
    requires forall m | m in chain :: m in lib.methods
  {
    && 0 < |calls| <= |chain| && calls[0].obj == ptr
    && (forall k | 0 <= k < |calls| ::
          calls[k] == if k < |chain| - 1 then Default(calls[k].obj, lib.methods[chain[k]].vtid)
                      else WithArguments(calls[k].obj, Declaration(chain[k], 0)))
    && (forall k | 0 <= k < |calls| - 1 :: (calls[k].obj, calls[k].vtid) in answer)
    && (forall k | 0 <= k < |calls| - 1 :: answer[(calls[k].obj, calls[k].vtid)] == calls[k + 1].obj)
    && (|calls| < |chain| ==> (calls[|calls| - 1].obj, calls[|calls| - 1].vtid) !in answer)
  }

  /** A shortcut declared by the generator, looked up and called: on an
      unambiguous chain the calls are those of the methods the generator found, in
      the order it found them. */
  method CallShortcut(
    lib: TypeLib, start: nat, listing: map<nat, seq<Declaration>>, com: Com, ptr: int, lastSucceeds: bool)
    returns (f: Option<Facade>, ok: bool, ghost chain: seq<nat>, ghost through: seq<nat>, ghost calls: seq<Call>)
    requires WellFormed(lib) && start in lib.methods && !Revisits(Hops(lib), start)
    requires forall i | i in lib.interfaces :: i in listing && Listing(lib, i, listing[i])
    requires forall q :: com.Count(q) >= 0
    modifies com
    ensures FullRoute(lib, chain, through) && chain[0] == start && (f.Some? <==> Declares(lib, chain))
    ensures com.log == old(com.log) + calls
    ensures f.Some? && Unambiguous(lib, chain, through) ==>
              && AlongChain(lib, chain, com.answer, ptr, calls)
              && (ok <==> |calls| == |chain| && lastSucceeds)
  {
    var r;
    f, r := GenerateAndResolve(lib, start, listing);
    chain, through :| FullRoute(lib, chain, through) && chain[0] == start && Agree(lib, chain, through, f, r);
    ok, calls := false, [];
    if r.Resolved? {
      ok, calls := Invoke(com, ptr, r.vtids, r.last, lastSucceeds);
    }
    if f.Some? && Unambiguous(lib, chain, through) {
      CallsAlongChain(lib, chain, com.answer, ptr, r.vtids, r.last, calls);
    }
  }

  lemma CallsAlongChain(
    lib: TypeLib, chain: seq<nat>, answer: map<(int, nat), int>, ptr: int, vtids: seq<nat>, last: Declaration,
    calls: seq<Call>)
    requires (forall m | m in chain :: m in lib.methods) && |chain| == |vtids| + 1
    requires vtids == Vtids(lib, chain[..|vtids|]) && last == Declaration(chain[|vtids|], 0)
    requires 0 < |calls| <= |vtids| + 1 && calls[0].obj == ptr
    requires forall k | 0 <= k < |calls| ::
               calls[k] == if k < |vtids| then Default(calls[k].obj, vtids[k]) else WithArguments(calls[k].obj, last)
    requires forall k | 0 <= k < |calls| - 1 ::
               (calls[k].obj, vtids[k]) in answer && answer[(calls[k].obj, vtids[k])] == calls[k + 1].obj
    requires |calls| <= |vtids| ==> (calls[|calls| - 1].obj, vtids[|calls| - 1]) !in answer
    ensures AlongChain(lib, chain, answer, ptr, calls)
  {
    assert forall k | 0 <= k < |vtids| :: vtids[k] == lib.methods[chain[k]].vtid;
  }
}

/** The two-level cache of type library wrappers. The maps hold uncounted
    pointers; a type wrapper holds a counted pointer to its library, and takes
    itself out of the library's map when it is destroyed.

    Storage is explicit: a wrapper lives at an address until its reference count
    drops to zero, and reading an address that holds no wrapper is an error. So
    every map access below is a proof that no dead wrapper is seen.
 */
module TypeLibCache {

  /** `leaked` counts the references to the library that nobody will give back;
      it is bookkeeping of this model, the code has no such field. */
  datatype CTypeLib = CTypeLib(typeLib: nat, refCount: nat, children: map<nat, nat>, leaked: nat)
  datatype CTypeDecl = CTypeDecl(parent: nat, typeInfo: nat, refCount: nat)

  type Libs = map<nat, CTypeLib>
  type Decls = map<nat, CTypeDecl>

  /** The references in clients' hands: those that are neither lost nor a child's. */
  function Held(lib: CTypeLib): int {
    lib.refCount - lib.leaked - |lib.children|
  }

  /** The same at any address; nothing is held of a wrapper that is not there. */
  function HeldAt(libs: Libs, l: nat): int {
    if l in libs then Held(libs[l]) else 0
  }

  function LeakedAt(libs: Libs, l: nat): nat {
    if l in libs then libs[l].leaked else 0
  }

  function CountAt(decls: Decls, d: nat): nat {
    if d in decls then decls[d].refCount else 0
  }

  // ---------------------------------------------------------------- invariants

  /** The static map holds exactly the live libraries, each under its own key. */
  ghost predicate Registered(libraries: map<nat, nat>, libs: Libs) {
    && (forall k {:trigger libraries[k]} | k in libraries :: libraries[k] in libs && libs[libraries[k]].typeLib == k)
    && (forall l {:trigger libs[l].typeLib} | l in libs ::
          libs[l].typeLib in libraries && libraries[libs[l].typeLib] == l)
  }

  /** What a library lists are its live children ... */
  ghost predicate ListsLive(libs: Libs, decls: Decls) {
    forall l, t {:trigger libs[l].children[t]} | l in libs && t in libs[l].children ::
      && libs[l].children[t] in decls
      && decls[libs[l].children[t]].typeInfo == t && decls[libs[l].children[t]].parent == l
  }

  /** ... and every live child has a live parent that lists it. */
  ghost predicate Listed(libs: Libs, decls: Decls) {
    forall d {:trigger decls[d].parent} | d in decls ::
      && decls[d].parent in libs && decls[d].typeInfo in libs[decls[d].parent].children
      && libs[decls[d].parent].children[decls[d].typeInfo] == d
  }

  /** Every live wrapper is referenced, and no reference is given back twice. */
  ghost predicate LibsCounted(libs: Libs) {
    forall l {:trigger Held(libs[l])} {:trigger libs[l].refCount} | l in libs ::
      Held(libs[l]) >= 0 && libs[l].refCount > 0
  }

  ghost predicate DeclsCounted(decls: Decls) {
    forall d {:trigger decls[d].refCount} | d in decls :: decls[d].refCount > 0
  }

  /** Two live wrappers of one library, or of one type in it, are the same one. */
  lemma KeysAreUnique(libraries: map<nat, nat>, libs: Libs, decls: Decls)
    requires Registered(libraries, libs) && Listed(libs, decls)
    ensures forall l, l' | l in libs && l' in libs && libs[l].typeLib == libs[l'].typeLib :: l == l'
    ensures forall d, d' | d in decls && d' in decls && decls[d].parent == decls[d'].parent
                           && decls[d].typeInfo == decls[d'].typeInfo :: d == d'
  {}

  lemma SetThrice(a: Libs, b: Libs, c: Libs, d: Libs, lib: nat)
    requires lib in b && b == a[lib := b[lib]] && lib in c && c == b[lib := c[lib]] && lib in d && d == c[lib := d[lib]]
    ensures d == a[lib := d[lib]]
  {}

  // ---------------------------------------------------------------- steps on one wrapper

  function NewLib(typeLib: nat): CTypeLib {
    CTypeLib(typeLib, 1, map[], 0)
  }

  function AddRef(lib: CTypeLib): CTypeLib {
    lib.(refCount := lib.refCount + 1)
  }

  function AddRefDecl(decl: CTypeDecl): CTypeDecl {
    decl.(refCount := decl.refCount + 1)
  }

  function Released(lib: CTypeLib): CTypeLib
    requires lib.refCount > 0
  {
    lib.(refCount := lib.refCount - 1)
  }

  function ReleasedDecl(decl: CTypeDecl): CTypeDecl
    requires decl.refCount > 0
  {
    decl.(refCount := decl.refCount - 1)
  }

  function Adopt(lib: CTypeLib, typeInfo: nat, decl: nat): CTypeLib {
    lib.(refCount := lib.refCount + 1, children := lib.children[typeInfo := decl])
  }

  function Disown(lib: CTypeLib, typeInfo: nat): CTypeLib {
    lib.(children := lib.children - {typeInfo})
  }

  /** One reference less; the last one takes the library out of storage. */
  function Dropped(libs: Libs, lib: nat): Libs
    requires lib in libs && libs[lib].refCount > 0
  {
    if libs[lib].refCount == 1 then libs - {lib} else libs[lib := Released(libs[lib])]
  }

  function WithoutChild(libs: Libs, lib: nat, typeInfo: nat): Libs
    requires lib in libs && libs[lib].refCount > 0
  {
    Dropped(libs[lib := Disown(libs[lib], typeInfo)], lib)
  }

  lemma Added(lib: CTypeLib, t: nat, d: nat)
    requires t !in lib.children
    ensures Held(Adopt(lib, t, d)) == Held(lib)
  {
    var m := lib.children;
    assert m[t := d].Keys == m.Keys + {t};
    assert |m| == |m.Keys| && |m[t := d]| == |m[t := d].Keys|;
  }

  lemma Erased(lib: CTypeLib, t: nat)
    requires t in lib.children
    ensures Held(Disown(lib, t)) == Held(lib) + 1
  {
    var m := lib.children;
    assert (m - {t}).Keys == m.Keys - {t};
    assert |m| == |m.Keys| && |m - {t}| == |(m - {t}).Keys|;
  }

  // ---------------------------------------------------------------- what each step keeps

  /** A new library under a new key. */
  lemma LibAdded(libraries: map<nat, nat>, libs: Libs, decls: Decls, typeLib: nat, lib: nat)
    requires Registered(libraries, libs) && typeLib !in libraries && lib !in libs
    ensures Registered(libraries[typeLib := lib], libs[lib := NewLib(typeLib)])
  {}

  lemma LibAddedKeepsChildren(libs: Libs, decls: Decls, typeLib: nat, lib: nat)
    requires ListsLive(libs, decls) && Listed(libs, decls) && LibsCounted(libs) && lib !in libs
    ensures ListsLive(libs[lib := NewLib(typeLib)], decls) && Listed(libs[lib := NewLib(typeLib)], decls)
    ensures LibsCounted(libs[lib := NewLib(typeLib)])
  {}

  /** Only the count and the account of a library change. */
  lemma LibRecounted(libraries: map<nat, nat>, libs: Libs, decls: Decls, lib: nat, after: CTypeLib)
    requires lib in libs && after.typeLib == libs[lib].typeLib && after.children == libs[lib].children
    requires Registered(libraries, libs) && ListsLive(libs, decls) && Listed(libs, decls)
    ensures Registered(libraries, libs[lib := after])
    ensures ListsLive(libs[lib := after], decls) && Listed(libs[lib := after], decls)
  {}

  lemma LibCounted(libs: Libs, lib: nat, after: CTypeLib)
    requires LibsCounted(libs) && lib in libs && Held(after) >= 0 && after.refCount > 0
    ensures LibsCounted(libs[lib := after])
  {}

  /** A library without children goes. */
  lemma LibRemoved(libraries: map<nat, nat>, libs: Libs, decls: Decls, lib: nat)
    requires lib in libs && libs[lib].children == map[]
    requires Registered(libraries, libs) && ListsLive(libs, decls) && Listed(libs, decls)
    ensures Registered(libraries - {libs[lib].typeLib}, libs - {lib})
    ensures ListsLive(libs - {lib}, decls) && Listed(libs - {lib}, decls)
  {}

  lemma DeclRecounted(libs: Libs, decls: Decls, decl: nat, after: CTypeDecl)
    requires decl in decls && after.parent == decls[decl].parent && after.typeInfo == decls[decl].typeInfo
    requires ListsLive(libs, decls) && Listed(libs, decls)
    ensures ListsLive(libs, decls[decl := after]) && Listed(libs, decls[decl := after])
  {}

  lemma DeclAdded(libraries: map<nat, nat>, libs: Libs, decls: Decls, lib: nat, t: nat, decl: nat)
    requires lib in libs && t !in libs[lib].children && decl !in decls
    requires Registered(libraries, libs) && ListsLive(libs, decls) && Listed(libs, decls)
    ensures Registered(libraries, libs[lib := Adopt(libs[lib], t, decl)])
    ensures ListsLive(libs[lib := Adopt(libs[lib], t, decl)], decls[decl := CTypeDecl(lib, t, 1)])
    ensures Listed(libs[lib := Adopt(libs[lib], t, decl)], decls[decl := CTypeDecl(lib, t, 1)])
  {}

  lemma DeclRemoved(libraries: map<nat, nat>, libs: Libs, decls: Decls, decl: nat)
    requires decl in decls && decls[decl].parent in libs
    requires Registered(libraries, libs) && ListsLive(libs, decls) && Listed(libs, decls)
    ensures var lib, t := decls[decl].parent, decls[decl].typeInfo;
            && Registered(libraries, libs[lib := Disown(libs[lib], t)])
            && ListsLive(libs[lib := Disown(libs[lib], t)], decls - {decl})
            && Listed(libs[lib := Disown(libs[lib], t)], decls - {decl})
  {}

  // ---------------------------------------------------------------- the operations

  class TypeLibraries {
    /** The static map of `CTypeLib`, from ITypeLib to wrapper address. */
    var libraries: map<nat, nat>
    /** The wrappers in storage. */
    var libs: Libs
    var decls: Decls

    ghost predicate Valid()
      reads this
    {
      && Registered(libraries, libs) && ListsLive(libs, decls) && Listed(libs, decls)
      && LibsCounted(libs) && DeclsCounted(decls)
    }

    constructor ()
      ensures Valid() && libs == map[] && decls == map[]
    {
      libraries, libs, decls := map[], map[], map[];
    }

    /** `CTypeLib::get`: the live wrapper of the library if there is one, else a
        new one; either way the caller owns one more reference. */
    method Get(typeLib: nat, address: nat) returns (lib: nat)
      requires Valid() && address !in libs
      modifies this`libs, this`libraries
      ensures Valid() && lib in libs && libs[lib].typeLib == typeLib
      ensures lib == (if typeLib in old(libraries) then old(libraries[typeLib]) else address)
      ensures libs == old(libs)[lib := if typeLib in old(libraries) then AddRef(old(libs[lib])) else NewLib(typeLib)]
      ensures Held(libs[lib]) == (if typeLib in old(libraries) then Held(old(libs[lib])) else 0) + 1
    {
      if typeLib !in libraries {
        lib := address;
        LibAdded(libraries, libs, decls, typeLib, lib);
        LibAddedKeepsChildren(libs, decls, typeLib, lib);
        libs := libs[lib := NewLib(typeLib)];
        libraries := libraries[typeLib := lib];
      } else {
        lib := libraries[typeLib];
        AddRefLib(lib);
      }
    }

    method AddRefLib(lib: nat)
      requires Valid() && lib in libs
      modifies this`libs
      ensures Valid() && libs == old(libs)[lib := AddRef(old(libs[lib]))]
    {
      LibRecounted(libraries, libs, decls, lib, AddRef(libs[lib]));
      LibCounted(libs, lib, AddRef(libs[lib]));
      libs := libs[lib := AddRef(libs[lib])];
    }

    method AddRefOfDecl(decl: nat)
      requires Valid() && decl in decls
      modifies this`decls
      ensures Valid() && decls == old(decls)[decl := AddRefDecl(old(decls[decl]))]
    {
      DeclRecounted(libs, decls, decl, AddRefDecl(decls[decl]));
      decls := decls[decl := AddRefDecl(decls[decl])];
    }

    /** `CTypeLib::getChild`: the live wrapper of the type if there is one, else
        a new one that counts on its library. */
    method GetChild(lib: nat, typeInfo: nat, address: nat) returns (decl: nat)
      requires Valid() && lib in libs && address !in decls
      modifies this`libs, this`decls
      ensures Valid() && decl in decls && decls[decl].parent == lib && decls[decl].typeInfo == typeInfo
      ensures if typeInfo in old(libs[lib].children)
              then
                && decl == old(libs[lib].children[typeInfo]) && libs == old(libs)
                && decls == old(decls)[decl := AddRefDecl(old(decls[decl]))]
                && decls[decl].refCount == old(decls[decl].refCount) + 1
              else
                && decl == address && decls == old(decls)[decl := CTypeDecl(lib, typeInfo, 1)]
                && libs == old(libs)[lib := Adopt(old(libs[lib]), typeInfo, decl)]
      ensures libs == old(libs)[lib := libs[lib]]
      ensures Held(libs[lib]) == Held(old(libs[lib])) && libs[lib].leaked == old(libs[lib].leaked)
      ensures decls == old(decls)[decl := decls[decl]] && decls[decl].refCount == CountAt(old(decls), decl) + 1
    {
      if typeInfo in libs[lib].children {
        decl := libs[lib].children[typeInfo];
        AddRefOfDecl(decl);
      } else {
        decl := address;
        Added(libs[lib], typeInfo, decl);
        DeclAdded(libraries, libs, decls, lib, typeInfo, decl);
        LibCounted(libs, lib, Adopt(libs[lib], typeInfo, decl));
        libs := libs[lib := Adopt(libs[lib], typeInfo, decl)];
        decls := decls[decl := CTypeDecl(lib, typeInfo, 1)];
      }
    }

    /** The destructor of a library takes it out of the static map; the last
        reference is gone, so there are no children. */
    method DestroyLib(lib: nat)
      requires Valid() && lib in libs && Held(libs[lib]) > 0 && libs[lib].refCount == 1
      modifies this`libs, this`libraries
      ensures Valid() && libs == old(libs) - {lib}
    {
      LibRemoved(libraries, libs, decls, lib);
      libraries := libraries - {libs[lib].typeLib};
      libs := libs - {lib};
    }

    /** A release of a library by one who holds it; the last one destroys it. */
    method ReleaseLib(lib: nat)
      requires Valid() && lib in libs && Held(libs[lib]) > 0
      modifies this`libs, this`libraries
      ensures Valid() && libs == Dropped(old(libs), lib)
      ensures lib in libs <==> old(libs[lib].refCount) > 1
      ensures lib in libs ==> Held(libs[lib]) == Held(old(libs[lib])) - 1
    {
      if libs[lib].refCount == 1 {
        DestroyLib(lib);
      } else {
        LibRecounted(libraries, libs, decls, lib, Released(libs[lib]));
        LibCounted(libs, lib, Released(libs[lib]));
        libs := libs[lib := Released(libs[lib])];
      }
    }

    /** The destructor of a type wrapper, which takes it out of its parent's map.
        Its reference to the parent is still to be released. */
    method DestroyDecl(decl: nat) returns (parent: nat)
      requires Valid() && decl in decls
      modifies this`libs, this`decls
      ensures Valid() && decls == old(decls) - {decl} && parent == old(decls[decl].parent) && parent in old(libs)
      ensures libs == old(libs)[parent := Disown(old(libs[parent]), old(decls[decl].typeInfo))]
      ensures Held(libs[parent]) == Held(old(libs[parent])) + 1
    {
      parent := decls[decl].parent;
      var typeInfo := decls[decl].typeInfo;
      Erased(libs[parent], typeInfo);
      DeclRemoved(libraries, libs, decls, decl);
      LibCounted(libs, parent, Disown(libs[parent], typeInfo));
      libs := libs[parent := Disown(libs[parent], typeInfo)];
      decls := decls - {decl};
    }

    /** A release of a type wrapper. The last one destroys it and then releases
        the parent, which may go as well. */
    method ReleaseDecl(decl: nat)
      requires Valid() && decl in decls
      modifies this
      ensures Valid()
      ensures decl in decls <==> old(decls[decl].refCount) > 1
      ensures decl in decls ==> decls[decl].refCount == old(decls[decl].refCount) - 1
      ensures old(decls[decl].refCount) > 1 ==>
                libs == old(libs) && decls == old(decls)[decl := ReleasedDecl(old(decls[decl]))]
      ensures old(decls[decl].refCount) == 1 ==>
                && decls == old(decls) - {decl}
                && libs == WithoutChild(old(libs), old(decls[decl].parent), old(decls[decl].typeInfo))
    {
      if decls[decl].refCount > 1 {
        ReleaseDeclRef(decl);
      } else {
        var parent := DestroyDecl(decl);
        ReleaseLib(parent);
      }
    }

    method ReleaseDeclRef(decl: nat)
      requires Valid() && decl in decls && decls[decl].refCount > 1
      modifies this`decls
      ensures Valid() && decls == old(decls)[decl := ReleasedDecl(old(decls[decl]))]
    {
      DeclRecounted(libs, decls, decl, ReleasedDecl(decls[decl]));
      decls := decls[decl := ReleasedDecl(decls[decl])];
    }

    /** A reference that its owner forgets. */
    method Lose(lib: nat)
      requires Valid() && lib in libs && Held(libs[lib]) > 0
      modifies this`libs
      ensures Valid() && libs == old(libs)[lib := old(libs[lib]).(leaked := old(libs[lib].leaked) + 1)]
    {
      var lost := libs[lib].(leaked := libs[lib].leaked + 1);
      LibRecounted(libraries, libs, decls, lib, lost);
      LibCounted(libs, lib, lost);
      libs := libs[lib := lost];
    }

    /** `raw_getParent`: one more reference to the library of a type. */
    method GetParent(decl: nat) returns (lib: nat)
      requires Valid() && decl in decls
      modifies this`libs
      ensures Valid() && lib == decls[decl].parent && lib in old(libs)
      ensures libs == old(libs)[lib := AddRef(old(libs[lib]))]
    {
      lib := decls[decl].parent;
      AddRefLib(lib);
    }

    /** `getRef`: the wrapper of a referenced type. The reference that `get`
        hands out is never given back. */
    method GetRef(typeLib: nat, typeInfo: nat, libAddress: nat, declAddress: nat) returns (decl: nat)
      requires Valid() && libAddress !in libs && declAddress !in decls
      modifies this
      ensures Valid() && decl in decls && decls[decl].typeInfo == typeInfo
      ensures var lib := decls[decl].parent;
              && lib in libs && libs[lib].typeLib == typeLib
              && libs == old(libs)[lib := libs[lib]]
              && libs[lib].leaked == LeakedAt(old(libs), lib) + 1
              && Held(libs[lib]) == HeldAt(old(libs), lib)
              && decls == old(decls)[decl := decls[decl]] && decls[decl].refCount == CountAt(old(decls), decl) + 1
    {
      ghost var before := libs;
      var lib := Get(typeLib, libAddress);
      ghost var got := libs;
      decl := GetChild(lib, typeInfo, declAddress);
      ghost var child := libs;
      Lose(lib);
      SetThrice(before, got, child, libs, lib);
    }
  }

  // ---------------------------------------------------------------- what clients see

  /** What a client is handed and what it gives back. `GotRef` is the answer of
      `getRef`: a type wrapper, found in this library. */
  datatype Event =
    | GotLib(lib: nat) | GaveLib(lib: nat)
    | GotDecl(decl: nat) | GaveDecl(decl: nat)
    | GotRef(decl: nat, lib: nat)

  function LibDelta(e: Event, l: nat): int {
    if e == GotLib(l) then 1 else if e == GaveLib(l) then -1 else 0
  }

  function DeclDelta(e: Event, d: nat): int {
    match e
    case GotDecl(decl) => if d == decl then 1 else 0
    case GotRef(decl, _) => if d == decl then 1 else 0
    case GaveDecl(decl) => if d == decl then -1 else 0
    case _ => 0
  }

  function LostDelta(e: Event, l: nat): nat {
    if e.GotRef? && e.lib == l then 1 else 0
  }

  /** What clients were handed of a wrapper less what they gave back. */
  function NetLib(log: seq<Event>, l: nat): int {
    if log == [] then 0 else NetLib(log[..|log| - 1], l) + LibDelta(log[|log| - 1], l)
  }

  function NetDecl(log: seq<Event>, d: nat): int {
    if log == [] then 0 else NetDecl(log[..|log| - 1], d) + DeclDelta(log[|log| - 1], d)
  }

  /** How often `getRef` found a type in this library. */
  function LostCount(log: seq<Event>, l: nat): nat {
    if log == [] then 0 else LostCount(log[..|log| - 1], l) + LostDelta(log[|log| - 1], l)
  }

  /** The counts in storage are what clients hold and what was lost; of an
      address without a wrapper nobody holds anything. */
  ghost predicate LibsAccounted(log: seq<Event>, libs: Libs) {
    forall l: nat {:trigger HeldAt(libs, l)} {:trigger NetLib(log, l)} {:trigger LostCount(log, l)} ::
      NetLib(log, l) == HeldAt(libs, l) && LostCount(log, l) == LeakedAt(libs, l)
  }

  ghost predicate DeclsAccounted(log: seq<Event>, decls: Decls) {
    forall d: nat {:trigger CountAt(decls, d)} {:trigger NetDecl(log, d)} :: NetDecl(log, d) == CountAt(decls, d)
  }

  lemma {:induction false} LostIffGotRef(log: seq<Event>, l: nat)
    ensures LostCount(log, l) > 0 <==> exists d :: GotRef(d, l) in log
  {
    if log != [] {
      var init, e := log[..|log| - 1], log[|log| - 1];
      LostIffGotRef(init, l);
      assert log == init + [e];
      if d :| GotRef(d, l) in log {
        assert GotRef(d, l) in init || e == GotRef(d, l);
      }
      if e.GotRef? && e.lib == l {
        assert GotRef(e.decl, l) in log;
      }
      if d :| GotRef(d, l) in init {
        assert GotRef(d, l) in log;
      }
    }
  }

  lemma LostStays(log: seq<Event>, libs: Libs)
    requires LibsAccounted(log, libs)
    ensures forall d, l | GotRef(d, l) in log :: l in libs
  {
    forall d, l | GotRef(d, l) in log
      ensures l in libs
    {
      LostIffGotRef(log, l);
      assert LostCount(log, l) == LeakedAt(libs, l);
    }
  }

  lemma ChildIsLive(libs: Libs, decls: Decls, l: nat, t: nat)
    requires ListsLive(libs, decls) && l in libs && t in libs[l].children
    ensures libs[l].children[t] in decls
  {}

  lemma NoChildren(libs: Libs, decls: Decls, l: nat)
    requires ListsLive(libs, decls) && decls == map[] && l in libs
    ensures libs[l].children == map[]
  {
    forall t | t in libs[l].children
      ensures false
    {
      ChildIsLive(libs, decls, l, t);
    }
  }

  /** When clients have given back all they were handed, no type wrapper and no
      child entry is left, and the libraries left are exactly those in which
      `getRef` found a type, with one reference for each time it did. */
  lemma LeftBehind(log: seq<Event>, libs: Libs, decls: Decls)
    requires ListsLive(libs, decls) && LibsCounted(libs) && DeclsCounted(decls)
    requires LibsAccounted(log, libs) && DeclsAccounted(log, decls)
    requires (forall l :: NetLib(log, l) == 0) && (forall d :: NetDecl(log, d) == 0)
    ensures decls == map[]
    ensures forall l | l in libs :: libs[l].children == map[] && libs[l].refCount == LostCount(log, l)
    ensures forall l :: l in libs <==> exists d :: GotRef(d, l) in log
  {
    forall d
      ensures d !in decls
    {
      assert NetDecl(log, d) == CountAt(decls, d);
    }
    forall l
      ensures l in libs ==> libs[l].children == map[] && libs[l].refCount == LostCount(log, l)
      ensures l in libs <==> exists d :: GotRef(d, l) in log
    {
      LostIffGotRef(log, l);
      assert NetLib(log, l) == HeldAt(libs, l);
      if l in libs {
        NoChildren(libs, decls, l);
      }
    }
  }

  /** The counts change as the event says. */
  ghost predicate LibsMove(e: Event, libs: Libs, libs': Libs) {
    forall l: nat {:trigger HeldAt(libs', l)} {:trigger LeakedAt(libs', l)} ::
      HeldAt(libs', l) == HeldAt(libs, l) + LibDelta(e, l) && LeakedAt(libs', l) == LeakedAt(libs, l) + LostDelta(e, l)
  }

  ghost predicate DeclsMove(e: Event, decls: Decls, decls': Decls) {
    forall d: nat {:trigger CountAt(decls', d)} :: CountAt(decls', d) == CountAt(decls, d) + DeclDelta(e, d)
  }

  lemma LibsStayAccounted(log: seq<Event>, e: Event, libs: Libs, libs': Libs)
    requires LibsAccounted(log, libs) && LibsMove(e, libs, libs')
    ensures LibsAccounted(log + [e], libs')
  {
    var longer := log + [e];
    assert longer[..|longer| - 1] == log;
    forall l: nat
      ensures NetLib(longer, l) == HeldAt(libs', l) && LostCount(longer, l) == LeakedAt(libs', l)
    {
      assert NetLib(log, l) == HeldAt(libs, l);
    }
  }

  lemma DeclsStayAccounted(log: seq<Event>, e: Event, decls: Decls, decls': Decls)
    requires DeclsAccounted(log, decls) && DeclsMove(e, decls, decls')
    ensures DeclsAccounted(log + [e], decls')
  {
    var longer := log + [e];
    assert longer[..|longer| - 1] == log;
    forall d: nat
      ensures NetDecl(longer, d) == CountAt(decls', d)
    {
      assert NetDecl(log, d) == CountAt(decls, d);
    }
  }

  lemma LibMoves(e: Event, libs: Libs, lib: nat, after: CTypeLib)
    requires Held(after) == HeldAt(libs, lib) + LibDelta(e, lib)
    requires after.leaked == LeakedAt(libs, lib) + LostDelta(e, lib)
    requires forall l | l != lib :: LibDelta(e, l) == 0 && LostDelta(e, l) == 0
    ensures LibsMove(e, libs, libs[lib := after])
  {}

  lemma LibsRest(e: Event, libs: Libs)
    requires e.GotDecl? || e.GaveDecl?
    ensures LibsMove(e, libs, libs)
  {
    forall l: nat
      ensures HeldAt(libs, l) == HeldAt(libs, l) + LibDelta(e, l) && LostDelta(e, l) == 0
    {
    }
  }

  lemma DeclMoves(e: Event, decls: Decls, decl: nat, after: CTypeDecl)
    requires after.refCount == CountAt(decls, decl) + DeclDelta(e, decl)
    requires forall d | d != decl :: DeclDelta(e, d) == 0
    ensures DeclsMove(e, decls, decls[decl := after])
  {}

  lemma DeclGoes(decls: Decls, decl: nat)
    requires decl in decls && decls[decl].refCount == 1
    ensures DeclsMove(GaveDecl(decl), decls, decls - {decl})
  {}

  lemma DeclsRest(e: Event, decls: Decls)
    requires e.GotLib? || e.GaveLib?
    ensures DeclsMove(e, decls, decls)
  {
    forall d: nat
      ensures CountAt(decls, d) == CountAt(decls, d) + DeclDelta(e, d)
    {
    }
  }

  lemma ChildMoves(libs: Libs, libs': Libs, decls: Decls, decls': Decls, lib: nat, decl: nat)
    requires lib in libs && lib in libs' && libs' == libs[lib := libs'[lib]]
    requires Held(libs'[lib]) == Held(libs[lib]) && libs'[lib].leaked == libs[lib].leaked
    requires decl in decls' && decls' == decls[decl := decls'[decl]]
    requires decls'[decl].refCount == CountAt(decls, decl) + 1
    ensures LibsMove(GotDecl(decl), libs, libs') && DeclsMove(GotDecl(decl), decls, decls')
  {
    LibMoves(GotDecl(decl), libs, lib, libs'[lib]);
    DeclMoves(GotDecl(decl), decls, decl, decls'[decl]);
  }

  lemma DroppedMoves(libs: Libs, lib: nat)
    requires LibsCounted(libs) && lib in libs && Held(libs[lib]) > 0
    ensures LibsMove(GaveLib(lib), libs, Dropped(libs, lib))
  {}

  /** The last release of a type takes its reference to the library along, and
      the reference it was counted by: no client's account changes. */
  lemma WithoutChildMoves(libs: Libs, lib: nat, typeInfo: nat, decl: nat)
    requires LibsCounted(libs) && lib in libs && typeInfo in libs[lib].children
    ensures LibsMove(GaveDecl(decl), libs, WithoutChild(libs, lib, typeInfo))
  {
    var disowned := Disown(libs[lib], typeInfo);
    Erased(libs[lib], typeInfo);
    LibCounted(libs, lib, disowned);
    DroppedMoves(libs[lib := disowned], lib);
  }

  // ---------------------------------------------------------------- whole runs

  /** What clients can do; addresses are what the allocator answers. */
  datatype Op =
    | OnGetLib(typeLib: nat, address: nat)
    | OnGetDecl(lib: nat, typeInfo: nat, address: nat)
    | OnAddRefLib(lib: nat) | OnReleaseLib(lib: nat)
    | OnAddRefDecl(decl: nat) | OnReleaseDecl(decl: nat) | OnGetParent(decl: nat)
    | OnGetRef(typeLib: nat, typeInfo: nat, libAddress: nat, declAddress: nat)

  /** Clients use what they hold, the allocator hands out free storage. */
  predicate Allowed(log: seq<Event>, libs: Libs, decls: Decls, op: Op) {
    match op
    case OnGetLib(_, address) => address !in libs
    case OnGetDecl(lib, _, address) => NetLib(log, lib) > 0 && address !in decls
    case OnAddRefLib(lib) => NetLib(log, lib) > 0
    case OnReleaseLib(lib) => NetLib(log, lib) > 0
    case OnAddRefDecl(decl) => NetDecl(log, decl) > 0
    case OnReleaseDecl(decl) => NetDecl(log, decl) > 0
    case OnGetParent(decl) => NetDecl(log, decl) > 0
    case OnGetRef(_, _, libAddress, declAddress) => libAddress !in libs && declAddress !in decls
  }

  /** One operation of a client: the counts move as its event says, so that a
      library with a lost reference stays. */
  method Step(cache: TypeLibraries, log: seq<Event>, op: Op) returns (e: Event)
    requires cache.Valid() && LibsAccounted(log, cache.libs) && DeclsAccounted(log, cache.decls)
    requires Allowed(log, cache.libs, cache.decls, op)
    modifies cache
    ensures cache.Valid()
    ensures LibsMove(e, old(cache.libs), cache.libs) && DeclsMove(e, old(cache.decls), cache.decls)
  {
    match op {
      case OnGetLib(typeLib, address) => e := StepGetLib(cache, typeLib, address);
      case OnGetDecl(lib, typeInfo, address) =>
        assert NetLib(log, lib) == HeldAt(cache.libs, lib);
        e := StepGetDecl(cache, lib, typeInfo, address);
      case OnAddRefLib(lib) =>
        assert NetLib(log, lib) == HeldAt(cache.libs, lib);
        e := StepAddRefLib(cache, lib);
      case OnReleaseLib(lib) =>
        assert NetLib(log, lib) == HeldAt(cache.libs, lib);
        e := StepReleaseLib(cache, lib);
      case OnAddRefDecl(decl) =>
        assert NetDecl(log, decl) == CountAt(cache.decls, decl);
        e := StepAddRefDecl(cache, decl);
      case OnReleaseDecl(decl) =>
        assert NetDecl(log, decl) == CountAt(cache.decls, decl);
        e := StepReleaseDecl(cache, decl);
      case OnGetParent(decl) =>
        assert NetDecl(log, decl) == CountAt(cache.decls, decl);
        e := StepGetParent(cache, decl);
      case OnGetRef(typeLib, typeInfo, libAddress, declAddress) =>
        e := StepGetRef(cache, typeLib, typeInfo, libAddress, declAddress);
    }
  }

  twostate predicate Moved(cache: TypeLibraries, e: Event)
    reads cache
  {
    && LibsMove(e, old(cache.libs), cache.libs) && DeclsMove(e, old(cache.decls), cache.decls)
  }

  method StepGetLib(cache: TypeLibraries, typeLib: nat, address: nat) returns (e: Event)
    requires cache.Valid() && address !in cache.libs
    modifies cache
    ensures cache.Valid() && Moved(cache, e)
  {
    ghost var before := cache.libs;
    var lib := cache.Get(typeLib, address);
    e := GotLib(lib);
    LibMoves(e, before, lib, cache.libs[lib]);
    DeclsRest(e, cache.decls);
  }

  method StepGetDecl(cache: TypeLibraries, lib: nat, typeInfo: nat, address: nat) returns (e: Event)
    requires cache.Valid() && lib in cache.libs && address !in cache.decls
    modifies cache
    ensures cache.Valid() && Moved(cache, e)
  {
    ghost var libs, decls := cache.libs, cache.decls;
    var decl := cache.GetChild(lib, typeInfo, address);
    e := GotDecl(decl);
    ChildMoves(libs, cache.libs, decls, cache.decls, lib, decl);
  }

  method StepAddRefLib(cache: TypeLibraries, lib: nat) returns (e: Event)
    requires cache.Valid() && lib in cache.libs
    modifies cache
    ensures cache.Valid() && Moved(cache, e)
  {
    e := GotLib(lib);
    LibMoves(e, cache.libs, lib, AddRef(cache.libs[lib]));
    DeclsRest(e, cache.decls);
    cache.AddRefLib(lib);
  }

  method StepReleaseLib(cache: TypeLibraries, lib: nat) returns (e: Event)
    requires cache.Valid() && lib in cache.libs && Held(cache.libs[lib]) > 0
    modifies cache
    ensures cache.Valid() && Moved(cache, e)
  {
    e := GaveLib(lib);
    DroppedMoves(cache.libs, lib);
    DeclsRest(e, cache.decls);
    cache.ReleaseLib(lib);
  }

  method StepAddRefDecl(cache: TypeLibraries, decl: nat) returns (e: Event)
    requires cache.Valid() && decl in cache.decls
    modifies cache
    ensures cache.Valid() && Moved(cache, e)
  {
    e := GotDecl(decl);
    LibsRest(e, cache.libs);
    DeclMoves(e, cache.decls, decl, AddRefDecl(cache.decls[decl]));
    cache.AddRefOfDecl(decl);
  }

  method StepReleaseDecl(cache: TypeLibraries, decl: nat) returns (e: Event)
    requires cache.Valid() && decl in cache.decls
    modifies cache
    ensures cache.Valid() && Moved(cache, e)
  {
    e := GaveDecl(decl);
    if cache.decls[decl].refCount > 1 {
      LibsRest(e, cache.libs);
      DeclMoves(e, cache.decls, decl, ReleasedDecl(cache.decls[decl]));
    } else {
      ghost var lib, typeInfo := cache.decls[decl].parent, cache.decls[decl].typeInfo;
      WithoutChildMoves(cache.libs, lib, typeInfo, decl);
      DeclGoes(cache.decls, decl);
    }
    cache.ReleaseDecl(decl);
  }

  method StepGetParent(cache: TypeLibraries, decl: nat) returns (e: Event)
    requires cache.Valid() && decl in cache.decls
    modifies cache
    ensures cache.Valid() && Moved(cache, e)
  {
    ghost var before := cache.libs;
    var lib := cache.GetParent(decl);
    e := GotLib(lib);
    LibMoves(e, before, lib, AddRef(before[lib]));
    DeclsRest(e, cache.decls);
  }

  method StepGetRef(cache: TypeLibraries, typeLib: nat, typeInfo: nat, libAddress: nat, declAddress: nat)
    returns (e: Event)
    requires cache.Valid() && libAddress !in cache.libs && declAddress !in cache.decls
    modifies cache
    ensures cache.Valid() && Moved(cache, e)
  {
    ghost var libs, decls := cache.libs, cache.decls;
    var decl := cache.GetRef(typeLib, typeInfo, libAddress, declAddress);
    var lib := cache.decls[decl].parent;
    e := GotRef(decl, lib);
    LibMoves(e, libs, lib, cache.libs[lib]);
    DeclMoves(e, decls, decl, cache.decls[decl]);
  }

  /** A run from the empty cache; operations that are not allowed are skipped.
      All the way, the static map and the child maps hold exactly the live
      wrappers, and every count is what clients were handed less what they gave
      back. A library in which `getRef` found a type stays for good. Once clients
      have given back everything, no type wrapper is left, and the libraries left
      are exactly those in which `getRef` found a type. */
  method Run(ops: seq<Op>) returns (cache: TypeLibraries, log: seq<Event>)
    ensures fresh(cache) && cache.Valid()
    ensures LibsAccounted(log, cache.libs) && DeclsAccounted(log, cache.decls)
    ensures forall d, l | GotRef(d, l) in log :: l in cache.libs
    ensures (forall l :: NetLib(log, l) == 0) && (forall d :: NetDecl(log, d) == 0) ==>
              && cache.decls == map[]
              && forall l :: l in cache.libs <==> exists d :: GotRef(d, l) in log
  {
    cache := new TypeLibraries();
    log := [];
    for i := 0 to |ops|
      invariant fresh(cache) && cache.Valid()
      invariant LibsAccounted(log, cache.libs) && DeclsAccounted(log, cache.decls)
    {
      if Allowed(log, cache.libs, cache.decls, ops[i]) {
        ghost var libs, decls := cache.libs, cache.decls;
        var e := Step(cache, log, ops[i]);
        LibsStayAccounted(log, e, libs, cache.libs);
        DeclsStayAccounted(log, e, decls, cache.decls);
        log := log + [e];
      }
    }
    LostStays(log, cache.libs);
    if (forall l :: NetLib(log, l) == 0) && (forall d :: NetDecl(log, d) == 0) {
      LeftBehind(log, cache.libs, cache.decls);
    }
  }
}

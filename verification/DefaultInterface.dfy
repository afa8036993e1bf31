/** The primary interface of a co-class: the default one, or else one that is
    left when the bases of the candidates are taken out. */
module DefaultInterface {

  datatype Option<T> = None | Some(value: T)

  /** An interface a co-class implements. `custom` is the interface callable by
      vtable, itself or the dual one's; `isDisp` says that it is a dispatch interface. */
  datatype Implemented = Implemented(isSource: bool, isDefault: bool, custom: Option<nat>, isDisp: bool, decl: nat)
  datatype Chosen = Custom(intf: nat) | Disp(decl: nat)

  /** The direct bases of each interface. */
  type Bases = map<nat, seq<nat>>

  predicate DirectBase(bases: Bases, of: nat, b: nat) {
    of in bases && b in bases[of]
  }

  /** A ranking that falls from an interface to its bases: no interface derives from itself. */
  ghost predicate Acyclic(bases: Bases, rank: map<nat, nat>) {
    forall i, b | DirectBase(bases, i, b) :: i in rank && b in rank && rank[b] < rank[i]
  }

  /** A path of direct bases from `from` to `to`. */
  ghost predicate Path(bases: Bases, from: nat, to: nat, path: seq<nat>) {
    && |path| >= 2 && path[0] == from && path[|path| - 1] == to
    && forall k | 0 <= k < |path| - 1 :: DirectBase(bases, path[k], path[k + 1])
  }

  ghost predicate Derives(bases: Bases, i: nat, b: nat) {
    exists path :: Path(bases, i, b, path)
  }

  // ---------------------------------------------------------------- the fallback

  /** Candidates that are a direct base of no candidate: what the fallback chooses from. */
  ghost predicate Remaining(bases: Bases, types: set<nat>, c: nat) {
    c in types && forall t | t in types :: !DirectBase(bases, t, c)
  }

  /** Candidates that no candidate derives from: what the fallback is meant to choose from. */
  ghost predicate MostDerived(bases: Bases, types: set<nat>, c: nat) {
    c in types && forall t | t in types :: !Derives(bases, t, c)
  }

  lemma {:induction false} HighestRank(types: set<nat>, rank: map<nat, nat>) returns (top: nat)
    requires types != {} && types <= rank.Keys
    ensures top in types && forall t | t in types :: rank[t] <= rank[top]
    decreases |types|
  {
    top :| top in types;
    var rest := types - {top};
    assert forall t | t in types :: t == top || t in rest;
    if rest != {} {
      var other := HighestRank(rest, rank);
      if rank[other] > rank[top] {
        top := other;
      }
    }
  }

  lemma {:induction false} PathFalls(bases: Bases, rank: map<nat, nat>, from: nat, to: nat, path: seq<nat>)
    requires Acyclic(bases, rank) && Path(bases, from, to, path)
    ensures from in rank && to in rank && rank[to] < rank[from]
    decreases |path|
  {
    assert DirectBase(bases, path[0], path[1]);
    if |path| > 2 {
      forall k | 0 <= k < |path[1..]| - 1
        ensures DirectBase(bases, path[1..][k], path[1..][k + 1])
      {
        assert DirectBase(bases, path[k + 1], path[k + 2]);
      }
      PathFalls(bases, rank, path[1], to, path[1..]);
    }
  }

  /** When the base relation is acyclic, a candidate that no candidate derives
      from always exists, and it is among those the fallback leaves. */
  lemma SomethingRemains(bases: Bases, rank: map<nat, nat>, types: set<nat>) returns (c: nat)
    requires Acyclic(bases, rank) && types != {} && types <= rank.Keys
    ensures MostDerived(bases, types, c) && Remaining(bases, types, c)
  {
    c := HighestRank(types, rank);
    forall t | t in types
      ensures !Derives(bases, t, c) && !DirectBase(bases, t, c)
    {
      if path :| Path(bases, t, c, path) {
        PathFalls(bases, rank, t, c, path);
      }
    }
  }

  lemma DirectIsDerived(bases: Bases, i: nat, b: nat)
    requires DirectBase(bases, i, b)
    ensures Derives(bases, i, b)
  {
    assert Path(bases, i, b, [i, b]);
  }

  lemma PathGoesOn(bases: Bases, from: nat, p: nat, to: nat, path: seq<nat>)
    requires Path(bases, from, p, path) && DirectBase(bases, p, to)
    ensures Path(bases, from, to, path + [to])
  {
    var longer := path + [to];
    forall k | 0 <= k < |longer| - 1
      ensures DirectBase(bases, longer[k], longer[k + 1])
    {
      if k < |path| - 1 {
        assert DirectBase(bases, path[k], path[k + 1]);
      }
    }
  }

  lemma PathBeforeLast(bases: Bases, from: nat, to: nat, path: seq<nat>)
    requires Path(bases, from, to, path) && |path| > 2
    ensures Path(bases, from, path[|path| - 2], path[..|path| - 1])
  {
    var shorter := path[..|path| - 1];
    forall k | 0 <= k < |shorter| - 1
      ensures DirectBase(bases, shorter[k], shorter[k + 1])
    {
      assert DirectBase(bases, path[k], path[k + 1]);
    }
  }

  /** Deriving ends with a direct base. */
  lemma LastStep(bases: Bases, t: nat, c: nat)
    ensures Derives(bases, t, c) <==> exists p :: (p == t || Derives(bases, t, p)) && DirectBase(bases, p, c)
  {
    if path :| Path(bases, t, c, path) {
      assert DirectBase(bases, path[|path| - 2], path[|path| - 2 + 1]);
      if |path| > 2 {
        PathBeforeLast(bases, t, c, path);
      }
    }
    if p :| (p == t || Derives(bases, t, p)) && DirectBase(bases, p, c) {
      if p == t {
        DirectIsDerived(bases, t, c);
      } else {
        var path :| Path(bases, t, p, path);
        PathGoesOn(bases, t, p, c, path);
      }
    }
  }

  /** An interface that is no candidate, with a candidate below it, stands
      between the candidates and one of its direct bases. */
  ghost predicate Gap(bases: Bases, types: set<nat>, between: nat, c: nat) {
    && between !in types && (exists t :: t in types && Derives(bases, t, between))
    && c in types && DirectBase(bases, between, c) && forall u | u in types :: !DirectBase(bases, u, c)
  }

  /** A candidate behind a gap stays in although a candidate derives from it. */
  lemma LeftBehindGap(bases: Bases, types: set<nat>, between: nat, c: nat)
    requires Gap(bases, types, between, c)
    ensures Remaining(bases, types, c) && !MostDerived(bases, types, c)
  {
    var t :| t in types && Derives(bases, t, between);
    LastStep(bases, t, c);
  }

  lemma MostDerivedRemains(bases: Bases, types: set<nat>, c: nat)
    requires MostDerived(bases, types, c)
    ensures Remaining(bases, types, c)
  {
    forall t | t in types
      ensures !DirectBase(bases, t, c)
    {
      if DirectBase(bases, t, c) {
        DirectIsDerived(bases, t, c);
      }
    }
  }

  /** What is left are exactly the candidates from which no candidate derives,
      if and only if there is no gap. */
  lemma RemainingAreMostDerivedIff(bases: Bases, types: set<nat>)
    ensures (forall c :: Remaining(bases, types, c) <==> MostDerived(bases, types, c))
       <==> (forall p, c :: !Gap(bases, types, p, c))
  {
    if forall c :: Remaining(bases, types, c) <==> MostDerived(bases, types, c) {
      forall p, c
        ensures !Gap(bases, types, p, c)
      {
        if Gap(bases, types, p, c) {
          LeftBehindGap(bases, types, p, c);
        }
      }
    }
    if forall p, c :: !Gap(bases, types, p, c) {
      forall c
        ensures Remaining(bases, types, c) <==> MostDerived(bases, types, c)
      {
        if MostDerived(bases, types, c) {
          MostDerivedRemains(bases, types, c);
        }
        if Remaining(bases, types, c) {
          NoGapMostDerived(bases, types, c);
        }
      }
    }
  }

  lemma NoGapMostDerived(bases: Bases, types: set<nat>, c: nat)
    requires Remaining(bases, types, c) && forall p :: !Gap(bases, types, p, c)
    ensures MostDerived(bases, types, c)
  {
    forall t | t in types
      ensures !Derives(bases, t, c)
    {
      LastStep(bases, t, c);
      if p :| (p == t || Derives(bases, t, p)) && DirectBase(bases, p, c) {
        assert Gap(bases, types, p, c);
      }
    }
  }

  /** A base two steps up stays in when the interface between is no candidate. */
  lemma GrandparentRemains(bases: Bases, types: set<nat>, t: nat, between: nat, c: nat)
    requires t in types && c in types && between !in types
    requires DirectBase(bases, t, between) && DirectBase(bases, between, c)
    requires forall u | u in types :: !DirectBase(bases, u, c)
    ensures Remaining(bases, types, c) && Derives(bases, t, c) && !MostDerived(bases, types, c)
  {
    DirectIsDerived(bases, t, between);
    LeftBehindGap(bases, types, between, c);
    LastStep(bases, t, c);
  }

  // ---------------------------------------------------------------- the choice

  /** The interfaces the fallback considers. */
  ghost function Candidates(impls: seq<Implemented>): set<nat> {
    set i | 0 <= i < |impls| && !impls[i].isSource && impls[i].custom.Some? :: impls[i].custom.value
  }

  /** The default interface that is taken: it has a custom one, or is a dispatch interface. */
  predicate Usable(impl: Implemented) {
    !impl.isSource && impl.isDefault && (impl.custom.Some? || impl.isDisp)
  }

  /** `getDefaultInterface`: the first usable default interface; else, if there
      are candidates, one that is a direct base of none, and without a gap one
      that no candidate derives from; the choice always exists. */
  method GetDefaultInterface(impls: seq<Implemented>, bases: Bases, ghost rank: map<nat, nat>)
    returns (r: Option<Chosen>)
    requires Acyclic(bases, rank) && Candidates(impls) <= rank.Keys
    ensures (exists i :: 0 <= i < |impls| && Usable(impls[i])) ==>
              exists i :: 0 <= i < |impls| && Usable(impls[i]) && (forall j | 0 <= j < i :: !Usable(impls[j]))
                          && r == Some(if impls[i].custom.Some? then Custom(impls[i].custom.value)
                                       else Disp(impls[i].decl))
    ensures !(exists i :: 0 <= i < |impls| && Usable(impls[i])) ==>
              if Candidates(impls) == {} then r == None
              else
                && r.Some? && r.value.Custom? && Remaining(bases, Candidates(impls), r.value.intf)
                && ((forall p, c :: !Gap(bases, Candidates(impls), p, c)) ==>
                      MostDerived(bases, Candidates(impls), r.value.intf))
    ensures !(exists i :: 0 <= i < |impls| && Usable(impls[i])) ==>
              && (r.None? <==> forall i | 0 <= i < |impls| && !impls[i].isSource :: impls[i].custom.None?)
              && (r.Some? ==>
                    && r.value.Custom?
                    && (exists i :: 0 <= i < |impls| && !impls[i].isSource && impls[i].custom == Some(r.value.intf))
                    && forall i | 0 <= i < |impls| && !impls[i].isSource && impls[i].custom.Some? ::
                         !DirectBase(bases, impls[i].custom.value, r.value.intf))
  {
    for i := 0 to |impls|
      invariant forall j | 0 <= j < i :: !Usable(impls[j])
    {
      if !impls[i].isSource && impls[i].isDefault {
        if impls[i].custom.Some? {
          return Some(Custom(impls[i].custom.value));
        }
        if impls[i].isDisp {
          return Some(Disp(impls[i].decl));
        }
      }
    }
    var types := Collect(impls);
    assert forall i | 0 <= i < |impls| && !impls[i].isSource && impls[i].custom.Some? :: impls[i].custom.value in types;
    if types == {} {
      return None;
    }
    var direct := DirectBases(bases, types);
    ghost var kept := SomethingRemains(bases, rank, types);
    var remaining := types - direct;
    assert kept in remaining;
    var c :| c in remaining;
    r := Some(Custom(c));
    RemainingAreMostDerivedIff(bases, types);
  }

  method Collect(impls: seq<Implemented>) returns (types: set<nat>)
    ensures types == Candidates(impls)
  {
    types := {};
    for i := 0 to |impls|
      invariant types == set k | 0 <= k < i && !impls[k].isSource && impls[k].custom.Some? :: impls[k].custom.value
    {
      if !impls[i].isSource && impls[i].custom.Some? {
        types := types + {impls[i].custom.value};
      }
    }
  }

  ghost predicate BaseOfSome(bases: Bases, ts: set<nat>, b: nat) {
    exists t :: t in ts && DirectBase(bases, t, b)
  }

  lemma OneMore(bases: Bases, ts: set<nat>, t: nat)
    ensures forall b :: BaseOfSome(bases, ts + {t}, b) <==> BaseOfSome(bases, ts, b) || DirectBase(bases, t, b)
  {
    forall b
      ensures BaseOfSome(bases, ts + {t}, b) <==> BaseOfSome(bases, ts, b) || DirectBase(bases, t, b)
    {
      if DirectBase(bases, t, b) {
        assert t in ts + {t};
      }
      if u :| u in ts && DirectBase(bases, u, b) {
        assert u in ts + {t};
      }
    }
  }

  /** All direct bases of the candidates. */
  method DirectBases(bases: Bases, types: set<nat>) returns (direct: set<nat>)
    ensures forall b :: b in direct <==> BaseOfSome(bases, types, b)
  {
    direct := {};
    var rest := types;
    while rest != {}
      invariant rest <= types
      invariant forall b :: b in direct <==> BaseOfSome(bases, types - rest, b)
      decreases rest
    {
      var t :| t in rest;
      ghost var before := direct;
      if t in bases {
        direct := direct + set b | b in bases[t];
      }
      assert forall b :: b in direct <==> b in before || DirectBase(bases, t, b);
      OneMore(bases, types - rest, t);
      assert types - (rest - {t}) == (types - rest) + {t};
      rest := rest - {t};
    }
  }
}

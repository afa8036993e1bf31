/** The run-time side of a call: the Java arguments are spread over the COM
    parameters by the index maps, and the native loop lays them out in ffi slots
    and inserts the slot of the return value. */
module CallAssembly {
  import opened MethodBinder

  // ---------------------------------------------------------------- spreading by index maps

  ghost predicate Increasing(s: seq<nat>) {
    forall i, j | 0 <= i < j < |s| :: s[i] < s[j]
  }

  ghost predicate OutOfBounds(s: seq<nat>, length: nat) {
    exists i :: 0 <= i < |s| && s[i] >= length
  }

  /** The last of the first `n` entries that names this place. */
  function LastFor(s: seq<nat>, n: nat, place: nat): (r: Option<nat>)
    requires n <= |s|
    ensures r.Some? ==> r.value < n && s[r.value] == place && forall k | r.value < k < n :: s[k] != place
    ensures r.None? ==> forall k | 0 <= k < n :: s[k] != place
  {
    if n == 0 then None else if s[n - 1] == place then Some(n - 1) else LastFor(s, n - 1, place)
  }

  /** What belongs in a place: the last default for it, else the last argument
      for it, else nothing. */
  function Belongs<T>(args: seq<T>, mapping: seq<nat>, defaults: seq<T>, optional: seq<nat>,
                      i: nat, j: nat, place: nat): Option<T>
    requires i <= |args| <= |mapping| && j <= |defaults| == |optional|
  {
    match LastFor(optional, j, place)
    case Some(k) => Some(defaults[k])
    case None =>
      match LastFor(mapping, i, place)
      case Some(k) => Some(args[k])
      case None => None
  }

  /** Every place of `r` has what belongs there of the first `i` arguments and
      the first `j` defaults. */
  ghost predicate Spreads<T>(r: seq<Option<T>>, args: seq<T>, mapping: seq<nat>, defaults: seq<T>, optional: seq<nat>,
                             i: nat, j: nat)
    requires i <= |args| <= |mapping| && j <= |defaults| == |optional|
  {
    forall p | 0 <= p < |r| :: r[p] == Belongs(args, mapping, defaults, optional, i, j, p)
  }

  /** With increasing maps every default and every argument gets through, but for
      arguments at the place of a default. */
  lemma DefaultGetsThrough<T>(
      r: seq<Option<T>>, args: seq<T>, mapping: seq<nat>, defaults: seq<T>, optional: seq<nat>, k: nat)
    requires |args| <= |mapping| && |defaults| == |optional| && Increasing(optional)
    requires Spreads(r, args, mapping, defaults, optional, |args|, |optional|)
    requires k < |optional| && optional[k] < |r|
    ensures r[optional[k]] == Some(defaults[k])
  {
    assert r[optional[k]] == Belongs(args, mapping, defaults, optional, |args|, |optional|, optional[k]);
  }

  lemma ArgumentGetsThrough<T>(
      r: seq<Option<T>>, args: seq<T>, mapping: seq<nat>, defaults: seq<T>, optional: seq<nat>, k: nat)
    requires |args| <= |mapping| && |defaults| == |optional| && Increasing(mapping)
    requires Spreads(r, args, mapping, defaults, optional, |args|, |optional|)
    requires k < |args| && mapping[k] < |r| && mapping[k] !in optional
    ensures r[mapping[k]] == Some(args[k])
  {
    assert r[mapping[k]] == Belongs(args, mapping, defaults, optional, |args|, |optional|, mapping[k]);
  }

  /** The first loop of the expansion, over the arguments. */
  method PlaceArgs<T>(newArgs: array<Option<T>>, args: seq<T>, mapping: seq<nat>,
                      ghost defaults: seq<T>, ghost optional: seq<nat>)
    returns (ok: bool)
    requires |args| <= |mapping| && |defaults| == |optional|
    requires forall p | 0 <= p < newArgs.Length :: newArgs[p] == None
    modifies newArgs
    ensures !ok <==> OutOfBounds(mapping[..|args|], newArgs.Length)
    ensures ok ==> Spreads(newArgs[..], args, mapping, defaults, optional, |args|, 0)
  {
    for i := 0 to |args|
      invariant forall k | 0 <= k < i :: mapping[k] < newArgs.Length
      invariant Spreads(newArgs[..], args, mapping, defaults, optional, i, 0)
    {
      if mapping[i] >= newArgs.Length {
        assert mapping[..|args|][i] == mapping[i];
        return false;
      }
      newArgs[mapping[i]] := Some(args[i]);
    }
    ok := true;
  }

  /** The second, over the defaults. */
  method PlaceDefaults<T>(newArgs: array<Option<T>>, ghost args: seq<T>, ghost mapping: seq<nat>,
                          defaults: seq<T>, optional: seq<nat>)
    returns (ok: bool)
    requires |args| <= |mapping| && |defaults| == |optional|
    requires Spreads(newArgs[..], args, mapping, defaults, optional, |args|, 0)
    modifies newArgs
    ensures !ok <==> OutOfBounds(optional, newArgs.Length)
    ensures ok ==> Spreads(newArgs[..], args, mapping, defaults, optional, |args|, |optional|)
  {
    for j := 0 to |optional|
      invariant forall k | 0 <= k < j :: optional[k] < newArgs.Length
      invariant Spreads(newArgs[..], args, mapping, defaults, optional, |args|, j)
    {
      if optional[j] >= newArgs.Length {
        return false;
      }
      newArgs[optional[j]] := Some(defaults[j]);
    }
    ok := true;
  }

  /** Parameter expansion as `Wrapper.invoke` does it to arguments and the
      `ComMethod` constructor to conversions; None is an index out of bounds. */
  method Spread<T>(args: seq<T>, mapping: seq<nat>, defaults: seq<T>, optional: seq<nat>)
    returns (r: Option<seq<Option<T>>>)
    requires |args| <= |mapping| && |defaults| == |optional|
    ensures var n := |args| + |optional|;
            r.None? <==> OutOfBounds(mapping[..|args|], n) || OutOfBounds(optional, n)
    ensures r.Some? ==>
              && |r.value| == |args| + |optional|
              && Spreads(r.value, args, mapping, defaults, optional, |args|, |optional|)
  {
    var newArgs := new Option<T>[|args| + |optional|](_ => None);
    var ok := PlaceArgs(newArgs, args, mapping, defaults, optional);
    if !ok {
      return None;
    }
    ok := PlaceDefaults(newArgs, args, mapping, defaults, optional);
    r := if ok then Some(newArgs[..]) else None;
  }

  // ---------------------------------------------------------------- the native slot loop

  datatype Slot<V, C> = This | ReturnSlot | Value(arg: V, conv: C)

  /** How the return conversion is treated, and what became of one argument. */
  datatype ReturnConv = Unmarshalled | HResult | Unexpected
  datatype Passed = Failed | ByValue | ByRef

  /** Where the call's result is taken from. */
  datatype Returned = Nothing | Own | OfParam(index: nat)
  datatype Outcome<V, C> = Error | Ready(slots: seq<Slot<V, C>>, returned: Returned)

  /** Slot 0 is the object, the others are the arguments in order, with the
      return slot inserted at parameter `ret` unless that is negative. */
  function Frame<V, C>(args: seq<V>, convs: seq<C>, ret: int): (f: seq<Slot<V, C>>)
    requires |args| <= |convs| && ret <= |args|
    ensures |f| == 1 + |args| + (if ret >= 0 then 1 else 0)
  {
    seq(1 + |args| + (if ret >= 0 then 1 else 0),
        k requires 0 <= k < 1 + |args| + (if ret >= 0 then 1 else 0) =>
          if k == 0 then This
          else if k == ret + 1 && ret >= 0 then ReturnSlot
          else
            var j := if 0 <= ret < k - 1 then k - 2 else k - 1;
            Value(args[j], convs[j]))
  }

  ghost predicate Inserts(n: nat, retIndex: int, retIsInOut: bool, retConv: ReturnConv) {
    0 <= retIndex <= n && !retIsInOut && retConv != HResult
  }

  /** The loop of `Environment::invoke`, for every return index. `passed` says
      what the conversion of each argument comes to. A parameter whose return
      conversion is HRESULT is taken up again as an ordinary one. */
  method FillSlots<V, C>(args: seq<V>, convs: seq<C>, passed: seq<Passed>, retIndex: int, retIsInOut: bool,
                         retConv: ReturnConv)
    returns (outcome: Outcome<V, C>, ffiArgCount: nat, ghost writes: seq<nat>)
    requires |args| <= |convs| && |args| == |passed|
    ensures outcome.Error? <==>
              || Failed in passed
              || (0 <= retIndex <= |args| && !retIsInOut && retConv == Unexpected)
              || (retIsInOut && 0 <= retIndex < |args| && passed[retIndex] != ByRef)
    ensures outcome.Ready? ==>
              var own := 0 <= retIndex <= |args| && !retIsInOut && retConv == Unmarshalled;
              && outcome.slots == Frame(args, convs, if own then retIndex else -1)
              && ffiArgCount == |outcome.slots|
              && writes == seq(ffiArgCount, k => k)
              && outcome.returned ==
                 if own then Own
                 else if retIsInOut && 0 <= retIndex < |args| then OfParam(retIndex)
                 else Nothing
  {
    var paramLen := |args|;
    var ffi := new Slot<V, C>[paramLen + 2](_ => This);
    writes, ffiArgCount := [0], 1;
    var ret, returned := retIndex, Nothing;
    ghost var inserts := Inserts(paramLen, retIndex, retIsInOut, retConv);
    ghost var frame := Frame(args, convs, if inserts then retIndex else -1);
    var javaParamIndex, comParamIndex := 0, 0;
    while comParamIndex <= paramLen
      invariant 0 <= comParamIndex <= paramLen + 1
      invariant ret == retIndex || (ret == -1 && !retIsInOut && retConv == HResult)
      invariant javaParamIndex == if (inserts && comParamIndex > retIndex) || comParamIndex > paramLen
                                  then comParamIndex - 1 else comParamIndex
      invariant Failed !in passed[..javaParamIndex]
      invariant ffiArgCount == if comParamIndex < |frame| then comParamIndex + 1 else |frame|
      invariant ffi[..ffiArgCount] == frame[..ffiArgCount]
      invariant writes == seq(ffiArgCount, k => k)
      invariant returned == if inserts && comParamIndex > retIndex then Own
                            else if retIsInOut && 0 <= retIndex < javaParamIndex then OfParam(retIndex)
                            else Nothing
      invariant inserts && comParamIndex > retIndex ==> retConv == Unmarshalled
      invariant retIsInOut && 0 <= retIndex < javaParamIndex ==> passed[retIndex] == ByRef
      decreases paramLen + 1 - comParamIndex, if ret == -1 then 0 else 1
    {
      if comParamIndex == ret && !retIsInOut {
        match retConv {
          case HResult =>
            ret := -1;
            comParamIndex := comParamIndex - 1;
          case Unexpected =>
            return Error, ffiArgCount, writes;
          case Unmarshalled =>
            returned := Own;
            ffi[comParamIndex + 1] := ReturnSlot;
            writes, ffiArgCount := writes + [comParamIndex + 1], ffiArgCount + 1;
        }
      } else if javaParamIndex < paramLen {
        var arg := passed[javaParamIndex];
        if arg == Failed {
          return Error, ffiArgCount, writes;
        }
        ffi[comParamIndex + 1] := Value(args[javaParamIndex], convs[javaParamIndex]);
        writes, ffiArgCount := writes + [comParamIndex + 1], ffiArgCount + 1;
        if comParamIndex == ret && retIsInOut {
          if arg != ByRef {
            return Error, ffiArgCount, writes;
          }
          returned := OfParam(javaParamIndex);
        }
        javaParamIndex := javaParamIndex + 1;
      }
      comParamIndex := comParamIndex + 1;
    }
    assert passed[..paramLen] == passed;
    outcome := Ready(ffi[..ffiArgCount], returned);
  }

  // ---------------------------------------------------------------- from declaration to call

  /** What a slot stands for: the caller's argument or the default for a COM
      parameter. The conversion code of a parameter is represented by its index. */
  datatype Symbol = Given(com: nat) | Omitted(com: nat)

  type FfiFrame = seq<Slot<Option<Symbol>, Option<nat>>>

  datatype ComMethod = ComMethod(convs: seq<Option<nat>>, returnIndex: int, returnIsInOut: bool)

  function Identity(n: nat): (s: seq<nat>)
    ensures |s| == n && forall i | 0 <= i < n :: s[i] == i
  {
    seq(n, i => i)
  }

  /** The return index the run-time reads off a declaration. */
  function ReturnIndex(d: Declaration): int {
    match d.returnValue
    case Some(rt) => if rt.index == -1 then |d.javaParams| else rt.index
    case None => if d.isVoid then -1 else |d.javaParams|
  }

  ghost predicate MapsFit(d: Declaration) {
    d.defaults.Some? ==> |d.javaParams| <= |d.defaults.value.paramIndexMapping|
  }

  ghost function Mapping(d: Declaration): seq<nat> {
    if d.defaults.Some? then d.defaults.value.paramIndexMapping else Identity(|d.javaParams|)
  }

  ghost function Optional(d: Declaration): seq<nat> {
    if d.defaults.Some? then d.defaults.value.optParamIndex else []
  }

  /** What the expansion of arguments and conversions has to establish. */
  ghost predicate SpreadBy<T>(r: Option<seq<Option<T>>>, args: seq<T>, defaults: seq<T>, d: Declaration)
    requires MapsFit(d) && |args| == |d.javaParams| && |defaults| == |Optional(d)|
  {
    var mapping, optional := Mapping(d), Optional(d);
    && (r.None? <==> OutOfBounds(mapping[..|args|], |args| + |optional|) || OutOfBounds(optional, |args| + |optional|))
    && (r.Some? ==>
          |r.value| == |args| + |optional| && Spreads(r.value, args, mapping, defaults, optional, |args|, |optional|))
  }

  /** The constructor of `ComMethod`. */
  method CreateComMethod(d: Declaration) returns (m: Option<ComMethod>)
    requires MapsFit(d)
    ensures SpreadBy(if m.Some? then Some(m.value.convs) else None, d.javaParams, Optional(d), d)
    ensures m.Some? ==> m.value.returnIndex == ReturnIndex(d)
    ensures m.Some? ==> m.value.returnIsInOut == (d.returnValue.Some? && d.returnValue.value.inout)
  {
    var convs;
    if d.defaults.Some? {
      var maps := d.defaults.value;
      convs := Spread(d.javaParams, maps.paramIndexMapping, maps.optParamIndex, maps.optParamIndex);
    } else {
      convs := Spread(d.javaParams, Identity(|d.javaParams|), [], []);
    }
    if convs.None? {
      return None;
    }
    var inout := d.returnValue.Some? && d.returnValue.value.inout;
    m := Some(ComMethod(convs.value, ReturnIndex(d), inout));
  }

  function Symbols(coms: seq<nat>, omitted: bool): (s: seq<Symbol>)
    ensures |s| == |coms| && forall i | 0 <= i < |s| :: s[i] == if omitted then Omitted(coms[i]) else Given(coms[i])
  {
    seq(|coms|, i requires 0 <= i < |coms| => if omitted then Omitted(coms[i]) else Given(coms[i]))
  }

  /** `Wrapper.invoke` on arguments that stand for the declared parameters. */
  method ExpandArguments(d: Declaration) returns (args: Option<seq<Option<Symbol>>>)
    requires MapsFit(d)
    ensures SpreadBy(args, Symbols(d.javaParams, false), Symbols(Optional(d), true), d)
  {
    var given := Symbols(d.javaParams, false);
    if d.defaults.Some? {
      var maps := d.defaults.value;
      args := Spread(given, maps.paramIndexMapping, Symbols(maps.optParamIndex, true), maps.optParamIndex);
    } else {
      args := Spread(given, Identity(|given|), [], []);
    }
  }

  /** What the COM method must receive: parameter `i` in slot `i + 1`, the
      default where it is omitted, the return slot where it is the hidden one. */
  ghost function Ideal(mask: seq<bool>, hidden: int): (f: FfiFrame)
    ensures |f| == |mask| + 1
  {
    seq(|mask| + 1, k requires 0 <= k < |mask| + 1 =>
      if k == 0 then This
      else if k - 1 == hidden then ReturnSlot
      else Value(Some(if mask[k - 1] then Omitted(k - 1) else Given(k - 1)), Some(k - 1)))
  }

  /** No default is used for the hidden return parameter or for one after it. */
  ghost predicate DefaultsBefore(mask: seq<bool>, hidden: int) {
    hidden < 0 || forall m | hidden <= m < |mask| :: !mask[m]
  }

  // ---------------------------------------------------------------- the maps agree

  /** The maps of a generated declaration, with or without annotations. */
  ghost predicate Emitted(d: Declaration, mask: seq<bool>, hidden: int) {
    var n := |mask|;
    && d.javaParams == Visible(mask, hidden, n) && MapsFit(d)
    && |d.javaParams| <= |Positions(mask, false, n)|
    && Mapping(d)[..|d.javaParams|] == Positions(mask, false, n)[..|d.javaParams|]
    && Optional(d) == Positions(mask, true, n)
    && Increasing(Mapping(d)) && Increasing(Optional(d))
  }

  lemma {:induction false} NothingMasked(mask: seq<bool>, n: nat)
    requires n <= |mask| && forall i | 0 <= i < n :: !mask[i]
    ensures Positions(mask, false, n) == Identity(n) && Positions(mask, true, n) == []
  {
    if n > 0 {
      NothingMasked(mask, n - 1);
    }
  }

  lemma {:induction false} VisibleAtMost(mask: seq<bool>, hidden: int, n: nat)
    requires n <= |mask|
    ensures |Visible(mask, hidden, n)| <= |Positions(mask, false, n)|
  {
    if n > 0 {
      VisibleAtMost(mask, hidden, n - 1);
    }
  }

  lemma DeclarationIsEmitted(mask: seq<bool>, hidden: int, d: Declaration, usesDefaults: bool)
    requires d.javaParams == Visible(mask, hidden, |mask|)
    requires if usesDefaults
             then d.defaults == Some(UseDefaultValues(Positions(mask, false, |mask|), Positions(mask, true, |mask|)))
             else d.defaults == None && forall i | 0 <= i < |mask| :: !mask[i]
    ensures Emitted(d, mask, hidden)
  {
    VisibleAtMost(mask, hidden, |mask|);
    PositionsBounded(mask, false, |mask|);
    PositionsBounded(mask, true, |mask|);
    if !usesDefaults {
      NothingMasked(mask, |mask|);
    }
  }

  /** How many arguments the expansion yields when every default comes early. */
  lemma ExpandedLength(d: Declaration, mask: seq<bool>, hidden: int)
    requires -1 <= hidden < |mask| && Emitted(d, mask, hidden) && DefaultsBefore(mask, hidden)
    ensures |d.javaParams| + |Optional(d)| == |mask| - (if hidden >= 0 then 1 else 0)
  {
    Partition(mask, |mask|);
    if hidden >= 0 {
      MappingCompacts(mask, hidden, |mask|);
    } else {
      NothingHidden(mask, hidden, |mask|);
    }
  }

  lemma MappingIsCompact(d: Declaration, mask: seq<bool>, hidden: int, p: nat)
    requires -1 <= hidden < |mask| && Emitted(d, mask, hidden) && DefaultsBefore(mask, hidden)
    requires p < |d.javaParams|
    ensures Mapping(d)[p] == Compact(d.javaParams[p], hidden)
  {
    assert Mapping(d)[p] == Mapping(d)[..|d.javaParams|][p];
    if hidden >= 0 {
      MappingCompacts(mask, hidden, |mask|);
    } else {
      NothingHidden(mask, hidden, |mask|);
    }
  }

  lemma {:induction false} VisibleBounded(mask: seq<bool>, hidden: int, n: nat)
    requires n <= |mask|
    ensures forall i | 0 <= i < |Visible(mask, hidden, n)| ::
              && Visible(mask, hidden, n)[i] < n && !mask[Visible(mask, hidden, n)[i]]
              && Visible(mask, hidden, n)[i] != hidden
  {
    if n > 0 {
      VisibleBounded(mask, hidden, n - 1);
    }
  }

  /** Nothing goes out of bounds ... */
  lemma SpreadSucceeds<T>(r: Option<seq<Option<T>>>, args: seq<T>, defaults: seq<T>, d: Declaration,
                          mask: seq<bool>, hidden: int)
    requires -1 <= hidden < |mask| && Emitted(d, mask, hidden) && DefaultsBefore(mask, hidden)
    requires |args| == |d.javaParams| && |defaults| == |Optional(d)| && SpreadBy(r, args, defaults, d)
    ensures r.Some? && |r.value| == |mask| - (if hidden >= 0 then 1 else 0)
  {
    ExpandedLength(d, mask, hidden);
    VisibleBounded(mask, hidden, |mask|);
    PositionsBounded(mask, true, |mask|);
    forall p | 0 <= p < |args|
      ensures Mapping(d)[p] < |args| + |Optional(d)|
    {
      MappingIsCompact(d, mask, hidden, p);
    }
  }

  /** ... and parameter `i` ends up at its place in the compacted list. */
  lemma SpreadPlaces<T>(r: Option<seq<Option<T>>>, args: seq<T>, defaults: seq<T>, d: Declaration,
                        mask: seq<bool>, hidden: int, i: nat) returns (k: nat)
    requires -1 <= hidden < |mask| && Emitted(d, mask, hidden) && DefaultsBefore(mask, hidden)
    requires |args| == |d.javaParams| && |defaults| == |Optional(d)| && SpreadBy(r, args, defaults, d)
    requires i < |mask| && i != hidden
    ensures r.Some? && 0 <= Compact(i, hidden) < |r.value|
    ensures mask[i] ==> k < |defaults| && Optional(d)[k] == i && r.value[Compact(i, hidden)] == Some(defaults[k])
    ensures !mask[i] ==> k < |args| && d.javaParams[k] == i && r.value[Compact(i, hidden)] == Some(args[k])
  {
    SpreadSucceeds(r, args, defaults, d, mask, hidden);
    if mask[i] {
      k := PositionOf(mask, |mask|, i);
      DefaultGetsThrough(r.value, args, Mapping(d), defaults, Optional(d), k);
    } else {
      k := VisibleOf(mask, hidden, |mask|, i);
      MappingIsCompact(d, mask, hidden, k);
      PositionsBounded(mask, true, |mask|);
      ArgumentGetsThrough(r.value, args, Mapping(d), defaults, Optional(d), k);
    }
  }

  // ---------------------------------------------------------------- the composition

  /** Parameter `i` and its conversion are at its place in the compacted lists. */
  predicate PlacedAt(args: seq<Option<Symbol>>, convs: seq<Option<nat>>, mask: seq<bool>, hidden: int, i: nat)
    requires i < |mask|
  {
    var p := Compact(i, hidden);
    && 0 <= p < |args| == |convs|
    && args[p] == Some(if mask[i] then Omitted(i) else Given(i)) && convs[p] == Some(i)
  }

  lemma ExpandedAt(args: Option<seq<Option<Symbol>>>, convs: Option<seq<Option<nat>>>, d: Declaration,
                   mask: seq<bool>, hidden: int, i: nat)
    requires -1 <= hidden < |mask| && Emitted(d, mask, hidden) && DefaultsBefore(mask, hidden)
    requires SpreadBy(args, Symbols(d.javaParams, false), Symbols(Optional(d), true), d)
    requires SpreadBy(convs, d.javaParams, Optional(d), d)
    requires args.Some? && convs.Some? && |args.value| == |convs.value| && i < |mask| && i != hidden
    ensures PlacedAt(args.value, convs.value, mask, hidden, i)
  {
    var _ := SpreadPlaces(args, Symbols(d.javaParams, false), Symbols(Optional(d), true), d, mask, hidden, i);
    var _ := SpreadPlaces(convs, d.javaParams, Optional(d), d, mask, hidden, i);
  }

  lemma FrameIsIdeal(args: seq<Option<Symbol>>, convs: seq<Option<nat>>, mask: seq<bool>, hidden: int)
    requires -1 <= hidden < |mask| && |args| == |convs| == |mask| - (if hidden >= 0 then 1 else 0)
    requires forall i | 0 <= i < |mask| && i != hidden :: PlacedAt(args, convs, mask, hidden, i)
    ensures Frame(args, convs, hidden) == Ideal(mask, hidden)
  {
    var frame, ideal := Frame(args, convs, hidden), Ideal(mask, hidden);
    assert |frame| == |ideal|;
    forall k | 0 <= k < |frame|
      ensures frame[k] == ideal[k]
    {
      if k > 0 && k - 1 != hidden {
        assert PlacedAt(args, convs, mask, hidden, k - 1);
      }
    }
  }

  lemma SlotsAreIdeal(args: Option<seq<Option<Symbol>>>, convs: Option<seq<Option<nat>>>, d: Declaration,
                      mask: seq<bool>, hidden: int)
    requires -1 <= hidden < |mask| && Emitted(d, mask, hidden) && DefaultsBefore(mask, hidden)
    requires SpreadBy(args, Symbols(d.javaParams, false), Symbols(Optional(d), true), d)
    requires SpreadBy(convs, d.javaParams, Optional(d), d)
    ensures args.Some? && convs.Some? && |args.value| == |convs.value| == |mask| - (if hidden >= 0 then 1 else 0)
    ensures Frame(args.value, convs.value, hidden) == Ideal(mask, hidden)
  {
    SpreadSucceeds(args, Symbols(d.javaParams, false), Symbols(Optional(d), true), d, mask, hidden);
    SpreadSucceeds(convs, d.javaParams, Optional(d), d, mask, hidden);
    forall i | 0 <= i < |mask| && i != hidden
      ensures PlacedAt(args.value, convs.value, mask, hidden, i)
    {
      ExpandedAt(args, convs, d, mask, hidden, i);
    }
    FrameIsIdeal(args.value, convs.value, mask, hidden);
  }

  /** A default at or after the hidden parameter lands one slot too far. */
  lemma MisplacedDefault(args: seq<Option<Symbol>>, convs: seq<Option<nat>>, mask: seq<bool>, hidden: nat, m: nat)
    requires hidden <= m < |args| == |convs| && args[m] == Some(Omitted(m))
    ensures Frame(args, convs, hidden) != Ideal(mask, hidden)
  {
    var frame := Frame(args, convs, hidden);
    assert frame[m + 2] == Value(args[m], convs[m]);
    if |frame| == |Ideal(mask, hidden)| {
      assert Ideal(mask, hidden)[m + 2] != frame[m + 2];
    }
  }

  lemma DefaultKept(r: Option<seq<Option<Symbol>>>, d: Declaration, mask: seq<bool>, hidden: int, m: nat)
    requires Emitted(d, mask, hidden) && m < |mask| && mask[m]
    requires SpreadBy(r, Symbols(d.javaParams, false), Symbols(Optional(d), true), d)
    ensures r.Some? ==> m < |r.value| && r.value[m] == Some(Omitted(m))
  {
    var k := PositionOf(mask, |mask|, m);
    if r.Some? {
      assert Optional(d)[k] == m;
      DefaultGetsThrough(r.value, Symbols(d.javaParams, false), Mapping(d), Symbols(Optional(d), true), Optional(d), k);
    }
  }

  /** Where the result is taken from; an in/out return parameter in last place
      is lost in a declaration without defaults, whose annotation has no index. */
  function ResultSource(params: seq<Param>, ret: int, usesDefaults: bool): Returned
    requires -1 <= ret < |params|
  {
    if ret == -1 then Nothing
    else if !params[ret].isIn then Own
    else if ret == |params| - 1 && !usesDefaults then Nothing
    else OfParam(ret)
  }

  lemma ReturnIndexIsHidden(params: seq<Param>, ret: int, mask: seq<bool>, usesDefaults: bool, d: Declaration)
    requires -1 <= ret < |params| == |mask| && Emitted(d, mask, HiddenParam(params, ret))
    requires d.isVoid == (ret == -1)
    requires d.returnValue == if ret == -1 then None else ReturnAnnotation(params, ret, usesDefaults)
    requires !usesDefaults ==> forall i | 0 <= i < |mask| :: !mask[i]
    ensures ret == -1 || HiddenParam(params, ret) >= 0 ==> ReturnIndex(d) == HiddenParam(params, ret)
    ensures ret >= 0 && params[ret].isIn ==>
              ReturnIndex(d) == if ret == |params| - 1 && !usesDefaults then |params| else ret
    ensures (d.returnValue.Some? && d.returnValue.value.inout) == (ret >= 0 && params[ret].isIn)
  {
    if !usesDefaults {
      ExpandedLength(d, mask, HiddenParam(params, ret));
      NothingMasked(mask, |mask|);
    }
  }

  /** The native part of a call whose arguments all convert. */
  method InvokeNative(m: ComMethod, args: seq<Option<Symbol>>, byRef: seq<bool>)
    returns (frame: FfiFrame, returned: Returned)
    requires |args| == |m.convs|
    requires m.returnIsInOut && 0 <= m.returnIndex < |args| ==> m.returnIndex < |byRef| && byRef[m.returnIndex]
    ensures var inserts := 0 <= m.returnIndex <= |args| && !m.returnIsInOut;
            && frame == Frame(args, m.convs, if inserts then m.returnIndex else -1)
            && returned == if inserts then Own
                           else if m.returnIsInOut && 0 <= m.returnIndex < |args| then OfParam(m.returnIndex)
                           else Nothing
  {
    var passed := seq(|args|, i requires 0 <= i < |args| => if i < |byRef| && byRef[i] then ByRef else ByValue);
    var outcome, _, _ := FillSlots(args, m.convs, passed, m.returnIndex, m.returnIsInOut, Unmarshalled);
    frame, returned := outcome.slots, outcome.returned;
  }

  /** The run-time side of the call of one declaration. */
  method Invoke(d: Declaration, byRef: seq<bool>, ghost mask: seq<bool>, ghost hidden: int, ghost inout: bool)
    returns (frame: Option<FfiFrame>, returned: Returned)
    requires -1 <= hidden < |mask| == |byRef| && Emitted(d, mask, hidden)
    requires inout == (d.returnValue.Some? && d.returnValue.value.inout)
    requires if inout then hidden == -1 && 0 <= ReturnIndex(d) <= |mask| else ReturnIndex(d) == hidden
    requires inout && ReturnIndex(d) < |mask| ==> byRef[ReturnIndex(d)]
    ensures frame == Some(Ideal(mask, hidden)) <==> DefaultsBefore(mask, hidden)
    ensures DefaultsBefore(mask, hidden) ==>
              returned == if hidden >= 0 then Own
                          else if inout && ReturnIndex(d) < |mask| then OfParam(ReturnIndex(d)) else Nothing
  {
    var m := CreateComMethod(d);
    var args := ExpandArguments(d);
    ghost var convs := if m.Some? then Some(m.value.convs) else None;
    if DefaultsBefore(mask, hidden) {
      SlotsAreIdeal(args, convs, d, mask, hidden);
    }
    if m.None? || args.None? {
      return None, Nothing;
    }
    var native, source := InvokeNative(m.value, args.value, byRef);
    if !DefaultsBefore(mask, hidden) {
      ghost var late :| hidden <= late < |mask| && mask[late];
      DefaultKept(args, d, mask, hidden, late);
      MisplacedDefault(args.value, m.value.convs, mask, hidden, late);
    }
    frame, returned := Some(native), source;
  }

  /** From the type library to the ffi slots: for every parameter list and every
      set of omitted defaults, each COM parameter receives exactly what it should
      if and only if no default is used at or after the hidden return parameter. */
  method Assemble(params: seq<Param>, ret: int, useDefault: Option<seq<bool>>, byRef: seq<bool>)
    returns (frame: Option<FfiFrame>, returned: Returned)
    requires -1 <= ret < |params| == |byRef|
    requires useDefault.Some? ==> |useDefault.value| == |params|
    requires ret >= 0 && params[ret].isIn ==> byRef[ret]
    ensures frame == Some(Ideal(Masked(params, useDefault), HiddenParam(params, ret)))
            <==> DefaultsBefore(Masked(params, useDefault), HiddenParam(params, ret))
    ensures DefaultsBefore(Masked(params, useDefault), HiddenParam(params, ret)) ==>
              returned == ResultSource(params, ret, useDefault.Some?)
  {
    ghost var mask := Masked(params, useDefault);
    ghost var hidden := HiddenParam(params, ret);
    var d := DeclareWithDefaults(params, ret, useDefault);
    DeclarationIsEmitted(mask, hidden, d, useDefault.Some?);
    ReturnIndexIsHidden(params, ret, mask, useDefault.Some?, d);
    frame, returned := Invoke(d, byRef, mask, hidden, ret >= 0 && params[ret].isIn);
  }

  /** All generated overloads of a method that omit defaults are right, or all
      of them are wrong: each omits the last optional parameter. */
  lemma OverloadsAllOrNone(optional: seq<bool>, k: nat, last: nat, hidden: int)
    requires k < |Overloads(optional, |optional|)|
    requires last < |optional| && optional[last] && forall i | last < i < |optional| :: !optional[i]
    ensures DefaultsBefore(Overloads(optional, |optional|)[k], hidden) <==> last < hidden || hidden < 0
  {
    OverloadsOmitLast(optional, |optional|, k, last);
  }
}

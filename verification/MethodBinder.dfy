/** The generator's side of a call: which parameter of a COM method is its
    return value, which overloads with omitted defaults are declared, and the
    index maps that each declaration carries in its annotations. */
module MethodBinder {

  datatype Option<T> = None | Some(value: T)
  datatype Param = Param(isIn: bool, isOut: bool, isRetval: bool)

  /** `index` is -1 when the annotation leaves it out. */
  datatype ReturnValue = ReturnValue(index: int, inout: bool)
  datatype UseDefaultValues = UseDefaultValues(paramIndexMapping: seq<nat>, optParamIndex: seq<nat>)

  /** A generated Java method; `javaParams` lists the COM index of each parameter. */
  datatype Declaration = Declaration(
    javaParams: seq<nat>,
    defaults: Option<UseDefaultValues>,
    isVoid: bool,
    returnValue: Option<ReturnValue>)

  // ---------------------------------------------------------------- the return value

  predicate OutOnly(p: Param) {
    p.isOut && !p.isIn
  }

  /** What `getReturnParam` is documented to find. */
  ghost predicate IsReturnParam(params: seq<Param>, r: int) {
    if exists i :: 0 <= i < |params| && params[i].isRetval then
      0 <= r < |params| && params[r].isRetval && forall i | 0 <= i < r :: !params[i].isRetval
    else if r >= 0 then
      r < |params| && OutOnly(params[r]) && forall i | 0 <= i < |params| && OutOnly(params[i]) :: i == r
    else
      && r == -1
      && forall i | 0 <= i < |params| && OutOnly(params[i]) ::
           exists j :: 0 <= j < |params| && j != i && OutOnly(params[j])
  }

  method GetReturnParam(params: seq<Param>) returns (r: int)
    ensures IsReturnParam(params, r)
    ensures -1 <= r < |params|
  {
    for i := 0 to |params|
      invariant forall j | 0 <= j < i :: !params[j].isRetval
    {
      if params[i].isRetval {
        return i;
      }
    }
    var outIdx := -1;
    for i := 0 to |params|
      invariant -1 <= outIdx < i
      invariant outIdx >= 0 ==> OutOnly(params[outIdx])
      invariant forall j | 0 <= j < i && OutOnly(params[j]) :: j == outIdx
    {
      if params[i].isOut && !params[i].isIn {
        if outIdx == -1 {
          outIdx := i;
        } else {
          assert OutOnly(params[i]) && OutOnly(params[outIdx]);
          return -1;
        }
      }
    }
    r := outIdx;
  }

  // ---------------------------------------------------------------- overloads

  /** The optional parameters from position `pos` on. */
  function Suffix(optional: seq<bool>, pos: nat): (m: seq<bool>)
    requires pos <= |optional|
    ensures |m| == |optional| && forall i | 0 <= i < |m| :: m[i] == (i >= pos && optional[i])
  {
    seq(|optional|, i requires 0 <= i < |optional| => i >= pos && optional[i])
  }

  /** One overload for every optional parameter among the first `n`: it omits that
      parameter and every optional one after it. */
  function Overloads(optional: seq<bool>, n: nat): seq<seq<bool>>
    requires n <= |optional|
  {
    if n == 0 then []
    else if optional[n - 1] then Overloads(optional, n - 1) + [Suffix(optional, n - 1)]
    else Overloads(optional, n - 1)
  }

  /** `declare`: the masks passed to `declareWithDefaults`, then a last
      declaration that uses no defaults. There is one mask for each optional
      parameter, in the order of these, and it omits that parameter, every
      optional one after it and nothing else. */
  method Declare(optional: seq<bool>, generateDefaultMethodOverloads: bool)
    returns (masks: seq<Option<seq<bool>>>, ghost parameters: seq<nat>)
    ensures Increasing(parameters)
    ensures forall i :: i in parameters <==> 0 <= i < |optional| && optional[i]
    ensures generateDefaultMethodOverloads ==>
              && |masks| == |parameters| + 1
              && forall k | 0 <= k < |parameters| ::
                   && masks[k].Some? && |masks[k].value| == |optional|
                   && forall i | 0 <= i < |optional| :: masks[k].value[i] <==> optional[i] && parameters[k] <= i
    ensures !generateDefaultMethodOverloads ==> |masks| == 1
    ensures masks[|masks| - 1] == None
    ensures forall k | 0 <= k < |masks| - 1 ::
              k < |Overloads(optional, |optional|)| && masks[k] == Some(Overloads(optional, |optional|)[k])
  {
    masks := [];
    var useDefault := new bool[|optional|](i requires 0 <= i < |optional| => optional[i]);
    var pos := 0;
    while generateDefaultMethodOverloads && pos < useDefault.Length
      invariant pos <= |optional| && (!generateDefaultMethodOverloads ==> pos == 0)
      invariant forall i | 0 <= i < |optional| :: useDefault[i] == (i >= pos && optional[i])
      invariant |masks| == |Overloads(optional, pos)|
      invariant forall i | 0 <= i < |masks| :: masks[i] == Some(Overloads(optional, pos)[i])
    {
      if useDefault[pos] {
        assert useDefault[..] == Suffix(optional, pos);
        masks := masks + [Some(useDefault[..])];
        useDefault[pos] := false;
      }
      pos := pos + 1;
    }
    ghost var all := masks;
    masks := masks + [None];
    parameters := OptionalOnes(optional);
    if generateDefaultMethodOverloads {
      MasksOmitRest(optional, all, parameters);
    }
  }

  lemma OptionalOnes(optional: seq<bool>) returns (parameters: seq<nat>)
    ensures parameters == Positions(optional, true, |optional|) && Increasing(parameters)
    ensures forall i :: i in parameters <==> 0 <= i < |optional| && optional[i]
  {
    parameters := Positions(optional, true, |optional|);
    PositionsBounded(optional, true, |optional|);
    forall i
      ensures i in parameters <==> 0 <= i < |optional| && optional[i]
    {
      if 0 <= i < |optional| && optional[i] {
        var k := PositionOf(optional, |optional|, i);
      }
    }
  }

  lemma MasksOmitRest(optional: seq<bool>, masks: seq<Option<seq<bool>>>, parameters: seq<nat>)
    requires |masks| == |Overloads(optional, |optional|)|
    requires forall k | 0 <= k < |masks| :: masks[k] == Some(Overloads(optional, |optional|)[k])
    requires parameters == Positions(optional, true, |optional|)
    ensures |masks| == |parameters|
    ensures forall k | 0 <= k < |parameters| ::
              && masks[k].Some? && |masks[k].value| == |optional|
              && forall i | 0 <= i < |optional| :: masks[k].value[i] <==> optional[i] && parameters[k] <= i
  {
    OverloadsAre(optional, |optional|);
    forall k | 0 <= k < |parameters|
      ensures
        && masks[k].Some? && |masks[k].value| == |optional|
        && forall i | 0 <= i < |optional| :: masks[k].value[i] <==> optional[i] && parameters[k] <= i
    {
      assert masks[k] == Some(Suffix(optional, parameters[k]));
    }
  }

  ghost predicate Increasing(s: seq<nat>) {
    forall a, b | 0 <= a < b < |s| :: s[a] < s[b]
  }

  /** Overload number k starts to omit at the k-th optional parameter. */
  lemma {:induction false} OverloadsAre(optional: seq<bool>, n: nat)
    requires n <= |optional|
    ensures |Overloads(optional, n)| == |Positions(optional, true, n)|
    ensures forall k | 0 <= k < |Overloads(optional, n)| ::
              Positions(optional, true, n)[k] < n
              && Overloads(optional, n)[k] == Suffix(optional, Positions(optional, true, n)[k])
  {
    if n > 0 {
      OverloadsAre(optional, n - 1);
    }
  }

  /** For every optional parameter there is exactly one overload that omits it
      and every optional one after it and nothing before it. */
  lemma OneOverloadEach(optional: seq<bool>, p: nat)
    returns (k: nat)
    requires p < |optional| && optional[p]
    ensures k < |Overloads(optional, |optional|)|
    ensures forall j | 0 <= j < |Overloads(optional, |optional|)| ::
              (|Overloads(optional, |optional|)[j]| == |optional|
               && forall i | 0 <= i < |optional| :: Overloads(optional, |optional|)[j][i] <==> optional[i] && p <= i)
              <==> j == k
  {
    var n := |optional|;
    OverloadsAre(optional, n);
    PositionsBounded(optional, true, n);
    k := PositionOf(optional, n, p);
    forall j | 0 <= j < |Overloads(optional, n)|
      ensures (|Overloads(optional, n)[j]| == n
               && forall i | 0 <= i < n :: Overloads(optional, n)[j][i] <==> optional[i] && p <= i)
              <==> j == k
    {
      var q := Positions(optional, true, n)[j];
      assert Overloads(optional, n)[j] == Suffix(optional, q);
      assert optional[q] && optional[p];
      if q != p {
        assert Overloads(optional, n)[j][p] != (optional[p] && p <= p)
               || Overloads(optional, n)[j][q] != (optional[q] && p <= q);
      }
    }
  }

  /** Every overload omits at least one parameter and, whichever one it is, the
      last optional one. */
  lemma {:induction false} OverloadsOmitLast(optional: seq<bool>, n: nat, k: nat, last: nat)
    requires n <= |optional| && k < |Overloads(optional, n)|
    requires last < |optional| && optional[last] && forall i | last < i < |optional| :: !optional[i]
    ensures |Overloads(optional, n)[k]| == |optional| && Overloads(optional, n)[k][last]
    ensures forall i | 0 <= i < |optional| && Overloads(optional, n)[k][i] :: optional[i] && i <= last
  {
    if k < |Overloads(optional, n - 1)| {
      OverloadsOmitLast(optional, n - 1, k, last);
    }
  }

  // ---------------------------------------------------------------- the declaration

  /** The positions below `n` where the mask has the given value. */
  function Positions(mask: seq<bool>, value: bool, n: nat): seq<nat>
    requires n <= |mask|
  {
    if n == 0 then []
    else if mask[n - 1] == value then Positions(mask, value, n - 1) + [n - 1]
    else Positions(mask, value, n - 1)
  }

  /** The parameters a caller sees: not omitted, and not the returned one unless it is also an input. */
  function Visible(mask: seq<bool>, hidden: int, n: nat): seq<nat>
    requires n <= |mask|
  {
    if n == 0 then []
    else if mask[n - 1] || n - 1 == hidden then Visible(mask, hidden, n - 1)
    else Visible(mask, hidden, n - 1) + [n - 1]
  }

  function NoMask(n: nat): (m: seq<bool>)
    ensures |m| == n && forall i | 0 <= i < n :: !m[i]
  {
    seq(n, _ => false)
  }

  /** The returned parameter that does not appear in the Java parameter list, or -1. */
  function HiddenParam(params: seq<Param>, ret: int): int
    requires -1 <= ret < |params|
  {
    if ret != -1 && !params[ret].isIn then ret else -1
  }

  ghost function Masked(params: seq<Param>, useDefault: Option<seq<bool>>): (m: seq<bool>)
    requires useDefault.Some? ==> |useDefault.value| == |params|
    ensures |m| == |params|
  {
    if useDefault.Some? then useDefault.value else NoMask(|params|)
  }

  /** The annotation on the return type; the default binding needs none of its own. */
  function ReturnAnnotation(params: seq<Param>, ret: int, usesDefaults: bool): Option<ReturnValue>
    requires 0 <= ret < |params|
  {
    if params[ret].isIn || ret != |params| - 1 || usesDefaults then
      Some(ReturnValue(if ret != |params| - 1 || usesDefaults then ret else -1, params[ret].isIn))
    else None
  }

  /** `declareWithDefaults`: the index maps of the omitted and the other
      parameters, the return annotation and the Java parameter list. */
  method DeclareWithDefaults(params: seq<Param>, ret: int, useDefault: Option<seq<bool>>) returns (d: Declaration)
    requires -1 <= ret < |params|
    requires useDefault.Some? ==> |useDefault.value| == |params|
    ensures var mask := Masked(params, useDefault);
            d == Declaration(
              Visible(mask, HiddenParam(params, ret), |params|),
              if useDefault.None? then None
              else Some(UseDefaultValues(Positions(mask, false, |params|), Positions(mask, true, |params|))),
              ret == -1,
              if ret == -1 then None else ReturnAnnotation(params, ret, useDefault.Some?))
  {
    var defaults := None;
    if useDefault.Some? {
      var mapping, optional: seq<nat> := [], [];
      for i := 0 to |params|
        invariant mapping == Positions(useDefault.value, false, i)
        invariant optional == Positions(useDefault.value, true, i)
      {
        if useDefault.value[i] {
          optional := optional + [i];
        } else {
          mapping := mapping + [i];
        }
      }
      defaults := Some(UseDefaultValues(mapping, optional));
    }
    var annotation := None;
    if ret != -1 {
      if params[ret].isIn || ret != |params| - 1 || useDefault.Some? {
        var index := -1;
        if ret != |params| - 1 || useDefault.Some? {
          index := ret;
        }
        annotation := Some(ReturnValue(index, params[ret].isIn));
      }
    }
    ghost var mask := Masked(params, useDefault);
    var visible: seq<nat> := [];
    for i := 0 to |params|
      invariant visible == Visible(mask, HiddenParam(params, ret), i)
    {
      if !(useDefault.Some? && useDefault.value[i]) && !(ret != -1 && i == ret && !params[i].isIn) {
        visible := visible + [i];
      }
    }
    d := Declaration(visible, defaults, ret == -1, annotation);
  }

  // ---------------------------------------------------------------- the index map

  /** The position of COM parameter `i` once the hidden return parameter is taken out. */
  function Compact(i: nat, hidden: int): int {
    if 0 <= hidden < i then i - 1 else i
  }

  lemma {:induction false} NothingHidden(mask: seq<bool>, hidden: int, n: nat)
    requires n <= |mask| && (hidden < 0 || n <= hidden)
    ensures Visible(mask, hidden, n) == Positions(mask, false, n)
  {
    if n > 0 {
      NothingHidden(mask, hidden, n - 1);
    }
  }

  lemma {:induction false} Partition(mask: seq<bool>, n: nat)
    requires n <= |mask|
    ensures |Positions(mask, false, n)| + |Positions(mask, true, n)| == n
  {
    if n > 0 {
      Partition(mask, n - 1);
    }
  }

  /** The emitted map lists the returned parameter too. As long as nothing after
      it is omitted, the map still sends every visible parameter to its place in
      the compacted list. */
  lemma {:induction false} MappingCompacts(mask: seq<bool>, hidden: nat, n: nat)
    requires hidden < n <= |mask| && forall m | hidden <= m < n :: !mask[m]
    ensures |Visible(mask, hidden, n)| + 1 == |Positions(mask, false, n)|
    ensures forall p | 0 <= p < |Visible(mask, hidden, n)| ::
              Positions(mask, false, n)[p] == Compact(Visible(mask, hidden, n)[p], hidden)
  {
    var visible, mapping := Visible(mask, hidden, n - 1), Positions(mask, false, n - 1);
    assert Positions(mask, false, n) == mapping + [n - 1];
    if n == hidden + 1 {
      NothingHidden(mask, hidden, hidden);
      PositionsBounded(mask, false, hidden);
    } else {
      MappingCompacts(mask, hidden, n - 1);
      LastPosition(mask, n - 1);
      assert Visible(mask, hidden, n) == visible + [n - 1];
      assert (mapping + [n - 1])[|visible|] == mapping[|mapping| - 1];
    }
  }

  lemma LastPosition(mask: seq<bool>, n: nat)
    requires 0 < n <= |mask| && !mask[n - 1]
    ensures Positions(mask, false, n) != []
    ensures Positions(mask, false, n)[|Positions(mask, false, n)| - 1] == n - 1
  {}

  /** Positions are increasing and hold exactly the indices with the value. */
  lemma {:induction false} PositionsBounded(mask: seq<bool>, value: bool, n: nat)
    requires n <= |mask|
    ensures forall i | 0 <= i < |Positions(mask, value, n)| ::
              Positions(mask, value, n)[i] < n && mask[Positions(mask, value, n)[i]] == value
    ensures forall i, j | 0 <= i < j < |Positions(mask, value, n)| ::
              Positions(mask, value, n)[i] < Positions(mask, value, n)[j]
  {
    if n > 0 {
      PositionsBounded(mask, value, n - 1);
    }
  }

  lemma {:induction false} PositionOf(mask: seq<bool>, n: nat, k: nat) returns (i: nat)
    requires k < n <= |mask|
    ensures i < |Positions(mask, mask[k], n)| && Positions(mask, mask[k], n)[i] == k
  {
    if k == n - 1 {
      i := |Positions(mask, mask[k], k)|;
    } else {
      i := PositionOf(mask, n - 1, k);
    }
  }

  lemma {:induction false} VisibleOf(mask: seq<bool>, hidden: int, n: nat, k: nat) returns (i: nat)
    requires k < n <= |mask| && !mask[k] && k != hidden
    ensures i < |Visible(mask, hidden, n)| && Visible(mask, hidden, n)[i] == k
  {
    if k == n - 1 {
      i := |Visible(mask, hidden, k)|;
    } else {
      i := VisibleOf(mask, hidden, n - 1, k);
    }
  }
}

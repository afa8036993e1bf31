/** The member loop of the interface generator on top of the indenting writer:
    each member is generated into a marked region, which is cancelled when its
    types cannot be bound. The text is taken back; the layout state is not. */
module InterfaceGenerator {
  import opened CancellableWriter

  /** What decides how the next thing is laid out. */
  datatype Layout = Layout(indent: int, newLine: bool, needsComma: bool, commaStack: seq<bool>, javaDocMode: bool)

  /** The calls a generator makes on the writer. */
  datatype Item = Print(text: string) | Newline | In | Out | BeginComma | EndComma | Comma | BeginDoc | EndDoc

  const LINE: string := "\n"

  // ---------------------------------------------------------------- rendering

  function Spaces(n: int): string {
    if n <= 0 then "" else Spaces(n - 1) + "  "
  }

  /** What `checkIndent` writes at the start of a line. */
  function Prefix(l: Layout): string {
    if l.newLine then Spaces(l.indent) + (if l.javaDocMode then " * " else "") else ""
  }

  function Printed(l: Layout, text: string): (string, Layout) {
    (Prefix(l) + text, l.(newLine := false, needsComma := true))
  }

  /** One call: the text it produces and the layout it leaves. */
  function Step(l: Layout, item: Item): (string, Layout)
    requires item.EndComma? ==> l.commaStack != []
  {
    match item
    case Print(text) => Printed(l, text)
    case Newline => (LINE, l.(newLine := true))
    case In => ("", l.(indent := l.indent + 1))
    case Out => ("", l.(indent := l.indent - 1))
    case BeginComma => ("", l.(commaStack := l.commaStack + [l.needsComma], needsComma := false))
    case EndComma =>
      var n := |l.commaStack| - 1;
      ("", l.(needsComma := l.needsComma || l.commaStack[n], commaStack := l.commaStack[..n]))
    case Comma =>
      if l.needsComma then (Printed(l, ",").0, Printed(l, ",").1.(needsComma := false)) else ("", l)
    case BeginDoc =>
      (Printed(l, "/**").0 + LINE, Printed(l, "/**").1.(newLine := true, javaDocMode := true))
    case EndDoc =>
      var plain := l.(javaDocMode := false);
      (Printed(plain, " */").0 + LINE, Printed(plain, " */").1.(newLine := true))
  }

  /** How many comma modes the first `n` items leave open. */
  function Depth(items: seq<Item>, n: nat): int
    requires n <= |items|
  {
    if n == 0 then 0
    else Depth(items, n - 1) + (if items[n - 1].BeginComma? then 1 else if items[n - 1].EndComma? then -1 else 0)
  }

  /** The first `n` items never close a comma mode they have not opened. */
  predicate BalancedTo(items: seq<Item>, n: nat)
    requires n <= |items|
  {
    n == 0 || (BalancedTo(items, n - 1) && Depth(items, n) >= 0)
  }

  predicate Balanced(items: seq<Item>) {
    BalancedTo(items, |items|)
  }

  lemma {:induction false} BalancedBefore(items: seq<Item>, i: nat, n: nat)
    requires i <= n <= |items| && BalancedTo(items, n)
    ensures BalancedTo(items, i)
    decreases n
  {
    if i < n {
      BalancedBefore(items, i, n - 1);
    }
  }

  /** The text of the first `n` items and the layout they leave. */
  ghost function Render(l: Layout, items: seq<Item>, n: nat): (r: (string, Layout))
    requires n <= |items| && BalancedTo(items, n)
    ensures |r.1.commaStack| == |l.commaStack| + Depth(items, n)
  {
    if n == 0 then ("", l)
    else
      var before := Render(l, items, n - 1);
      var step := Step(before.1, items[n - 1]);
      (before.0 + step.0, step.1)
  }

  // ---------------------------------------------------------------- the writer

  /** Text goes to the end of the buffer in a marked region, else to the sink. */
  ghost predicate Grown(marked: bool, sink: string, buffer: string, sink': string, buffer': string, text: string) {
    if marked then sink' == sink && buffer' == buffer + text else sink' == sink + text && buffer' == buffer
  }

  lemma GrownTwice(marked: bool, s0: string, b0: string, s1: string, b1: string, s2: string, b2: string,
                   t: string, u: string)
    requires Grown(marked, s0, b0, s1, b1, t) && Grown(marked, s1, b1, s2, b2, u)
    ensures Grown(marked, s0, b0, s2, b2, t + u)
  {
    assert (b0 + t) + u == b0 + (t + u);
    assert (s0 + t) + u == s0 + (t + u);
  }

  class IndentingWriter {
    const w: CancellableWriter
    var indent: int
    var newLine: bool
    var needsComma: bool
    var commaStack: seq<bool>
    var javaDocMode: bool

    constructor (w: CancellableWriter)
      ensures this.w == w && State() == Layout(0, true, false, [], false)
    {
      this.w, indent, newLine, needsComma, commaStack, javaDocMode := w, 0, true, false, [], false;
    }

    ghost function State(): Layout
      reads this
    {
      Layout(indent, newLine, needsComma, commaStack, javaDocMode)
    }

    method PrintIndent()
      requires w.Valid() && !w.closed
      modifies w`sink, w`buffer
      ensures w.Valid() && Grown(w.marked, old(w.sink), old(w.buffer), w.sink, w.buffer, Spaces(indent))
    {
      var i := 0;
      while i < indent
        invariant 0 <= i && (i <= indent || i == 0)
        invariant w.Valid() && Grown(w.marked, old(w.sink), old(w.buffer), w.sink, w.buffer, Spaces(i))
      {
        ghost var sink, buffer := w.sink, w.buffer;
        var _ := w.Write("  ");
        GrownTwice(w.marked, old(w.sink), old(w.buffer), sink, buffer, w.sink, w.buffer, Spaces(i), "  ");
        i := i + 1;
      }
    }

    method CheckIndent()
      requires w.Valid() && !w.closed
      modifies this`newLine, w`sink, w`buffer
      ensures w.Valid() && State() == old(State()).(newLine := false)
      ensures Grown(w.marked, old(w.sink), old(w.buffer), w.sink, w.buffer, Prefix(old(State())))
    {
      if newLine {
        PrintIndent();
        if javaDocMode {
          ghost var sink, buffer := w.sink, w.buffer;
          var _ := w.Write(" * ");
          GrownTwice(w.marked, old(w.sink), old(w.buffer), sink, buffer, w.sink, w.buffer, Spaces(indent), " * ");
        }
      }
      newLine := false;
    }

    method PrintText(text: string)
      requires w.Valid() && !w.closed
      modifies this, w`sink, w`buffer
      ensures w.Valid() && State() == Printed(old(State()), text).1
      ensures Grown(w.marked, old(w.sink), old(w.buffer), w.sink, w.buffer, Printed(old(State()), text).0)
    {
      CheckIndent();
      needsComma := true;
      ghost var sink, buffer := w.sink, w.buffer;
      var _ := w.Write(text);
      GrownTwice(w.marked, old(w.sink), old(w.buffer), sink, buffer, w.sink, w.buffer, Prefix(old(State())), text);
    }

    /** The line separator goes out directly, without indentation. */
    method Println()
      requires w.Valid() && !w.closed
      modifies this`newLine, w`sink, w`buffer
      ensures w.Valid() && State() == old(State()).(newLine := true)
      ensures Grown(w.marked, old(w.sink), old(w.buffer), w.sink, w.buffer, LINE)
    {
      var _ := w.Write(LINE);
      newLine := true;
    }

    method PrintLine(text: string)
      requires w.Valid() && !w.closed
      modifies this, w`sink, w`buffer
      ensures w.Valid() && State() == Printed(old(State()), text).1.(newLine := true)
      ensures Grown(w.marked, old(w.sink), old(w.buffer), w.sink, w.buffer, Printed(old(State()), text).0 + LINE)
    {
      PrintText(text);
      ghost var sink, buffer := w.sink, w.buffer;
      Println();
      GrownTwice(w.marked, old(w.sink), old(w.buffer), sink, buffer, w.sink, w.buffer,
                 Printed(old(State()), text).0, LINE);
    }

    /** One call on the writer has the effect that `Step` describes. */
    method Perform(item: Item)
      requires w.Valid() && !w.closed && (item.EndComma? ==> commaStack != [])
      modifies this, w`sink, w`buffer
      ensures w.Valid() && State() == Step(old(State()), item).1
      ensures Grown(w.marked, old(w.sink), old(w.buffer), w.sink, w.buffer, Step(old(State()), item).0)
    {
      match item {
        case Print(text) => PrintText(text);
        case Newline => Println();
        case In => indent := indent + 1;
        case Out => indent := indent - 1;
        case BeginComma =>
          commaStack := commaStack + [needsComma];
          needsComma := false;
        case EndComma =>
          needsComma := needsComma || commaStack[|commaStack| - 1];
          commaStack := commaStack[..|commaStack| - 1];
        case Comma =>
          if needsComma {
            PrintText(",");
            needsComma := false;
          }
        case BeginDoc =>
          PrintLine("/**");
          javaDocMode := true;
        case EndDoc =>
          javaDocMode := false;
          PrintLine(" */");
      }
    }

    method PerformAll(items: seq<Item>)
      requires w.Valid() && !w.closed && Balanced(items)
      modifies this, w`sink, w`buffer
      ensures w.Valid() && State() == Render(old(State()), items, |items|).1
      ensures Grown(w.marked, old(w.sink), old(w.buffer), w.sink, w.buffer, Render(old(State()), items, |items|).0)
    {
      for i := 0 to |items|
        invariant BalancedTo(items, i)
        invariant w.Valid() && State() == Render(old(State()), items, i).1
        invariant Grown(w.marked, old(w.sink), old(w.buffer), w.sink, w.buffer, Render(old(State()), items, i).0)
      {
        ghost var before, sink, buffer := State(), w.sink, w.buffer;
        BalancedBefore(items, i + 1, |items|);
        Perform(items[i]);
        GrownTwice(w.marked, old(w.sink), old(w.buffer), sink, buffer, w.sink, w.buffer,
                   Render(old(State()), items, i).0, Step(before, items[i]).0);
      }
    }
  }

  // ---------------------------------------------------------------- the member loop

  /** What generating one member comes to: whether it is a property put, its name,
      the calls made, and whether it ended with a BindingException. */
  datatype Member = Member(isPut: bool, name: string, items: seq<Item>, fails: bool)

  ghost predicate AllBalanced(members: seq<Member>) {
    forall i | 0 <= i < |members| :: Balanced(members[i].items)
  }

  /** Not generated: a property put whose name an earlier one has used, even one that failed. */
  ghost predicate Skipped(members: seq<Member>, i: nat)
    requires i < |members|
  {
    members[i].isPut && exists j :: 0 <= j < i && members[j].isPut && members[j].name == members[i].name
  }

  /** The texts that come out of the first `n` members and the layout they leave.
      A failed member leaves its layout behind, unless `restores`. */
  ghost function Output(l: Layout, members: seq<Member>, n: nat, restores: bool): (r: (seq<string>, Layout))
    requires n <= |members| && AllBalanced(members)
    ensures |r.0| == |Written(members, n)|
  {
    if n == 0 then ([], l)
    else
      var before, m := Output(l, members, n - 1, restores), members[n - 1];
      if Skipped(members, n - 1) then before
      else
        var all := Render(before.1, m.items, |m.items|);
        if m.fails then (before.0, if restores then before.1 else all.1) else (before.0 + [all.0], all.1)
  }

  function Joined(texts: seq<string>): string {
    if texts == [] then "" else Joined(texts[..|texts| - 1]) + texts[|texts| - 1]
  }

  lemma OneMoreText(sink: string, texts: seq<string>, text: string)
    ensures sink + Joined(texts + [text]) == (sink + Joined(texts)) + text
  {
    assert (texts + [text])[..|texts|] == texts;
  }

  /** The members that come out of the first `n`, in order. */
  ghost function Written(members: seq<Member>, n: nat): (r: seq<nat>)
    requires n <= |members|
    ensures forall k | 0 <= k < |r| :: r[k] < n
  {
    if n == 0 then []
    else if Skipped(members, n - 1) || members[n - 1].fails then Written(members, n - 1)
    else Written(members, n - 1) + [n - 1]
  }

  /** Each of the texts is that of a whole member, laid out where its turn comes. */
  lemma {:induction false} OutputIsWhole(l: Layout, members: seq<Member>, n: nat, k: nat)
    requires n <= |members| && AllBalanced(members) && k < |Written(members, n)|
    ensures var i := Written(members, n)[k];
            Output(l, members, n, false).0[k]
            == Render(Output(l, members, i, false).1, members[i].items, |members[i].items|).0
  {
    if k < |Written(members, n - 1)| {
      OutputIsWhole(l, members, n - 1, k);
    }
  }

  lemma {:induction false} WrittenIff(members: seq<Member>, n: nat, i: nat)
    requires n <= |members| && i < n
    ensures i in Written(members, n) <==> !Skipped(members, i) && !members[i].fails
  {
    if i < n - 1 {
      WrittenIff(members, n - 1, i);
    } else {
      assert i !in Written(members, n - 1);
    }
  }

  lemma {:induction false} WrittenInOrder(members: seq<Member>, n: nat)
    requires n <= |members|
    ensures forall a, b | 0 <= a < b < |Written(members, n)| :: Written(members, n)[a] < Written(members, n)[b]
  {
    if n > 0 {
      WrittenInOrder(members, n - 1);
    }
  }

  /** The layouts in which the members come to their turn, and the one left at the end. */
  ghost function Layouts(l: Layout, members: seq<Member>): (ls: seq<Layout>)
    requires AllBalanced(members)
  {
    seq(|members| + 1, i requires 0 <= i <= |members| => Output(l, members, i, false).1)
  }

  /** A member comes out exactly if it does not fail and, if it is a put, no put
      before it has its name; those that come out keep their order, each as the
      text of the whole member in the layout that the members before left: all of
      them but the puts of a name that was used. */
  lemma ComesOutIff(l: Layout, members: seq<Member>)
    returns (written: seq<nat>, texts: seq<string>, layouts: seq<Layout>)
    requires AllBalanced(members)
    ensures texts == Output(l, members, |members|, false).0 && |texts| == |written| && |layouts| == |members| + 1
    ensures written == Written(members, |members|)
    ensures forall i :: i in written <==>
              && 0 <= i < |members| && !members[i].fails
              && !(members[i].isPut && exists j :: 0 <= j < i && members[j].isPut && members[j].name == members[i].name)
    ensures forall a, b | 0 <= a < b < |written| :: written[a] < written[b]
    ensures layouts[0] == l && layouts[|members|] == Output(l, members, |members|, false).1
    ensures UsedNamesLeaveNothing(members, layouts) && OthersLeaveTheirs(members, layouts)
    ensures forall k | 0 <= k < |written| ::
              written[k] < |members| &&
              texts[k] == Render(layouts[written[k]], members[written[k]].items, |members[written[k]].items|).0
  {
    written := WrittenExactly(members);
    texts := Output(l, members, |members|, false).0;
    layouts := LayoutsFollow(l, members);
    TextsAreWhole(l, members, written, texts, layouts);
  }

  lemma TextsAreWhole(
    l: Layout, members: seq<Member>, written: seq<nat>, texts: seq<string>, layouts: seq<Layout>)
    requires AllBalanced(members) && written == Written(members, |members|) && layouts == Layouts(l, members)
    requires texts == Output(l, members, |members|, false).0
    ensures forall k | 0 <= k < |written| ::
              written[k] < |members| &&
              texts[k] == Render(layouts[written[k]], members[written[k]].items, |members[written[k]].items|).0
  {
    forall k | 0 <= k < |written|
      ensures texts[k] == Render(layouts[written[k]], members[written[k]].items, |members[written[k]].items|).0
    {
      OutputIsWhole(l, members, |members|, k);
    }
  }

  /** A put of a name that was used leaves the layout as it is. */
  ghost predicate UsedNamesLeaveNothing(members: seq<Member>, layouts: seq<Layout>)
    requires |layouts| == |members| + 1
  {
    forall i, j | 0 <= j < i < |members| && members[j].isPut && members[i].isPut ::
      members[j].name == members[i].name ==> layouts[i + 1] == layouts[i]
  }

  /** Every other member leaves the layout that its calls lead to, if it fails as well. */
  ghost predicate OthersLeaveTheirs(members: seq<Member>, layouts: seq<Layout>)
    requires |layouts| == |members| + 1 && AllBalanced(members)
  {
    forall i | 0 <= i < |members| ::
      (members[i].isPut ==> forall j | 0 <= j < i && members[j].isPut :: members[j].name != members[i].name)
      ==> layouts[i + 1] == Render(layouts[i], members[i].items, |members[i].items|).1
  }

  lemma LayoutsFollow(l: Layout, members: seq<Member>) returns (layouts: seq<Layout>)
    requires AllBalanced(members)
    ensures layouts == Layouts(l, members)
    ensures layouts[0] == l && layouts[|members|] == Output(l, members, |members|, false).1
    ensures UsedNamesLeaveNothing(members, layouts) && OthersLeaveTheirs(members, layouts)
  {
    layouts := Layouts(l, members);
    forall i, j | 0 <= j < i < |members| && members[j].isPut && members[i].isPut
      ensures members[j].name == members[i].name ==> layouts[i + 1] == layouts[i]
    {
      if members[j].name == members[i].name {
        UsedNameLeavesNothing(l, members, j, i, layouts);
      }
    }
    forall i | 0 <= i < |members|
      ensures (members[i].isPut ==> forall j | 0 <= j < i && members[j].isPut :: members[j].name != members[i].name)
        ==> layouts[i + 1] == Render(layouts[i], members[i].items, |members[i].items|).1
    {
      if members[i].isPut ==> forall j | 0 <= j < i && members[j].isPut :: members[j].name != members[i].name {
        LayoutAfter(l, members, i, layouts);
      }
    }
  }

  lemma UsedNameLeavesNothing(l: Layout, members: seq<Member>, j: nat, i: nat, layouts: seq<Layout>)
    requires AllBalanced(members) && j < i < |members| && layouts == Layouts(l, members)
    requires members[j].isPut && members[i].isPut && members[j].name == members[i].name
    ensures layouts[i + 1] == layouts[i]
  {
    assert Skipped(members, i);
    LayoutFollows(l, members, i);
  }

  lemma LayoutAfter(l: Layout, members: seq<Member>, i: nat, layouts: seq<Layout>)
    requires AllBalanced(members) && i < |members| && layouts == Layouts(l, members)
    requires members[i].isPut ==> forall j | 0 <= j < i && members[j].isPut :: members[j].name != members[i].name
    ensures layouts[i + 1] == Render(layouts[i], members[i].items, |members[i].items|).1
  {
    assert !Skipped(members, i);
    LayoutFollows(l, members, i);
  }

  lemma LayoutFollows(l: Layout, members: seq<Member>, i: nat)
    requires AllBalanced(members) && i < |members|
    ensures var before := Output(l, members, i, false).1;
            Output(l, members, i + 1, false).1
            == if Skipped(members, i) then before else Render(before, members[i].items, |members[i].items|).1
  {}

  lemma WrittenExactly(members: seq<Member>) returns (written: seq<nat>)
    ensures written == Written(members, |members|)
    ensures forall i :: i in written <==>
              && 0 <= i < |members| && !members[i].fails
              && !(members[i].isPut && exists j :: 0 <= j < i && members[j].isPut && members[j].name == members[i].name)
    ensures forall a, b | 0 <= a < b < |written| :: written[a] < written[b]
  {
    written := Written(members, |members|);
    WrittenInOrder(members, |members|);
    forall i
      ensures i in written <==>
        && 0 <= i < |members| && !members[i].fails
        && !(members[i].isPut && exists j :: 0 <= j < i && members[j].isPut && members[j].name == members[i].name)
    {
      if 0 <= i < |members| {
        WrittenIff(members, |members|, i);
      }
    }
  }

  /** The loop of `generate`: the sink receives the text of the members that were
      generated without an error, in order, and nothing of the others. */
  method Generate(o: IndentingWriter, members: seq<Member>)
    returns (ghost written: seq<nat>, ghost texts: seq<string>, ghost layouts: seq<Layout>)
    requires o.w.Valid() && !o.w.marked && !o.w.closed && AllBalanced(members)
    modifies o, o.w
    ensures o.w.Valid() && !o.w.marked && !o.w.closed
    ensures o.w.sink == old(o.w.sink) + Joined(texts) && |texts| == |written|
    ensures |layouts| == |members| + 1 && layouts[0] == old(o.State()) && layouts[|members|] == o.State()
    ensures forall i :: i in written <==>
              && 0 <= i < |members| && !members[i].fails
              && !(members[i].isPut && exists j :: 0 <= j < i && members[j].isPut && members[j].name == members[i].name)
    ensures forall a, b | 0 <= a < b < |written| :: written[a] < written[b]
    ensures forall k | 0 <= k < |written| ::
              written[k] < |members| &&
              texts[k] == Render(layouts[written[k]], members[written[k]].items, |members[written[k]].items|).0
    ensures UsedNamesLeaveNothing(members, layouts) && OthersLeaveTheirs(members, layouts)
    ensures texts == Output(old(o.State()), members, |members|, false).0
  {
    var putMethods: set<string> := {};
    ghost var l, start := o.State(), o.w.sink;
    for j := 0 to |members|
      invariant o.w.Valid() && !o.w.marked && !o.w.closed
      invariant forall name ::
                  name in putMethods <==> exists i :: 0 <= i < j && members[i].isPut && members[i].name == name
      invariant o.w.sink == start + Joined(Output(l, members, j, false).0)
      invariant o.State() == Output(l, members, j, false).1
    {
      var m := members[j];
      if !(m.isPut && m.name in putMethods) {
        assert !Skipped(members, j);
        OneMoreText(start, Output(l, members, j, false).0, Render(o.State(), m.items, |m.items|).0);
        GenerateMember(o, m);
      }
      if m.isPut {
        putMethods := putMethods + {m.name};
      }
    }
    written, texts, layouts := ComesOutIff(l, members);
  }

  /** One member: buffered, then committed or cancelled. */
  method GenerateMember(o: IndentingWriter, m: Member)
    requires o.w.Valid() && !o.w.marked && !o.w.closed && Balanced(m.items)
    modifies o, o.w
    ensures o.w.Valid() && !o.w.marked && !o.w.closed
    ensures var all := Render(old(o.State()), m.items, |m.items|);
            && o.State() == all.1
            && o.w.sink == if m.fails then old(o.w.sink) else old(o.w.sink) + all.0
  {
    var _ := o.w.Mark();
    o.PerformAll(m.items);
    if m.fails {
      var _ := o.w.Cancel();
    } else {
      var _ := o.w.Commit();
    }
  }

  predicate PutOf(m: Member, name: string) {
    m.isPut && m.name == name
  }

  ghost predicate FirstPut(members: seq<Member>, name: string, i: nat) {
    && i < |members| && PutOf(members[i], name)
    && forall j | 0 <= j < i :: !PutOf(members[j], name)
  }

  /** Of the puts of one name at most the first comes out, and one comes out at
      all exactly if the first one does not fail: a later put that would have
      succeeded cannot take its place. */
  lemma PutComesOutIff(members: seq<Member>, name: string)
    ensures forall i | i in Written(members, |members|) && PutOf(members[i], name) :: FirstPut(members, name, i)
    ensures (exists i :: i in Written(members, |members|) && PutOf(members[i], name))
       <==> (exists i: nat :: FirstPut(members, name, i) && !members[i].fails)
  {
    var written := Written(members, |members|);
    forall i | i in written && PutOf(members[i], name)
      ensures FirstPut(members, name, i) && !members[i].fails
    {
      WrittenIff(members, |members|, i);
    }
    if i: nat :| FirstPut(members, name, i) && !members[i].fails {
      WrittenIff(members, |members|, i);
      assert i in written;
    }
  }

  // ---------------------------------------------------------------- lists and comments

  /** The calls for a list: comma mode, and `comma` before each token. */
  ghost predicate TokenList(items: seq<Item>, tokens: seq<string>) {
    && |items| == 2 * |tokens| + 2 && items[0] == BeginComma && items[|items| - 1] == EndComma
    && forall k | 0 <= k < |tokens| :: items[2 * k + 1] == Comma && items[2 * k + 2] == Print(tokens[k])
  }

  /** Commas between the tokens, none before the first and none after the last. */
  function Separated(tokens: seq<string>): string {
    if |tokens| <= 1 then (if tokens == [] then "" else tokens[0])
    else Separated(tokens[..|tokens| - 1]) + "," + tokens[|tokens| - 1]
  }

  /** The layout after the first `k` tokens of a list that began in `l`. */
  function WithinList(l: Layout, k: nat): Layout {
    l.(newLine := l.newLine && k == 0, needsComma := k > 0, commaStack := l.commaStack + [l.needsComma])
  }

  function ListText(l: Layout, tokens: seq<string>): string {
    (if tokens == [] then "" else Prefix(l)) + Separated(tokens)
  }

  lemma {:induction false} TokensSoFar(l: Layout, items: seq<Item>, tokens: seq<string>, k: nat)
    requires TokenList(items, tokens) && k <= |tokens|
    ensures BalancedTo(items, 2 * k + 1) && Depth(items, 2 * k + 1) == 1
    ensures Render(l, items, 2 * k + 1) == (ListText(l, tokens[..k]), WithinList(l, k))
  {
    if k == 0 {
      assert BalancedTo(items, 0) && Depth(items, 1) == 1;
      RenderOne(l, items);
    } else {
      TokensSoFar(l, items, tokens, k - 1);
      assert items[2 * (k - 1) + 1] == Comma && items[2 * (k - 1) + 2] == Print(tokens[k - 1]);
      OneMoreToken(l, items, 2 * k - 1, tokens[k - 1]);
      assert tokens[..k] == tokens[..k - 1] + [tokens[k - 1]];
      ListGrows(l, tokens[..k - 1], tokens[k - 1]);
    }
  }

  lemma ListGrows(l: Layout, tokens: seq<string>, token: string)
    ensures var before := WithinList(l, |tokens|);
            ListText(l, tokens + [token])
            == ListText(l, tokens) + (Prefix(before) + (if before.needsComma then "," + token else token))
  {
    assert (tokens + [token])[..|tokens|] == tokens;
    if tokens == [] {
      assert Separated([token]) == token;
      assert tokens + [token] == [token];
    } else {
      var ahead := Prefix(l) + Separated(tokens);
      assert "" + ("," + token) == "," + token;
      assert ahead + ("," + token) == Prefix(l) + (Separated(tokens) + "," + token);
    }
  }

  lemma OneMoreToken(l: Layout, items: seq<Item>, n: nat, token: string)
    requires n + 2 <= |items| && BalancedTo(items, n) && Depth(items, n) > 0
    requires items[n] == Comma && items[n + 1] == Print(token)
    ensures BalancedTo(items, n + 2) && Depth(items, n + 2) == Depth(items, n)
    ensures var before := Render(l, items, n);
            Render(l, items, n + 2)
            == (before.0 + (Prefix(before.1) + (if before.1.needsComma then "," + token else token)),
                before.1.(newLine := false, needsComma := true))
  {
    assert BalancedTo(items, n + 1) && Depth(items, n + 1) == Depth(items, n);
    var before := Render(l, items, n);
    var comma := Step(before.1, Comma);
    RenderStep(l, items, n);
    RenderStep(l, items, n + 1);
    Associative(before.0, comma.0, Step(comma.1, Print(token)).0);
    CommaThenPrint(before.1, token);
  }

  lemma RenderStep(l: Layout, items: seq<Item>, n: nat)
    requires n < |items| && BalancedTo(items, n + 1)
    ensures var before := Render(l, items, n);
            Render(l, items, n + 1) == (before.0 + Step(before.1, items[n]).0, Step(before.1, items[n]).1)
  {}

  lemma Associative(s: string, t: string, u: string)
    ensures s + t + u == s + (t + u)
  {}

  lemma CommaThenPrint(l: Layout, token: string)
    ensures var comma := Step(l, Comma);
            && comma.0 + Step(comma.1, Print(token)).0 == Prefix(l) + (if l.needsComma then "," + token else token)
            && Step(comma.1, Print(token)).1 == l.(newLine := false, needsComma := true)
  {
    var comma := Step(l, Comma);
    if l.needsComma {
      assert Prefix(comma.1) == "" && "" + token == token;
      Associative(Prefix(l), ",", token);
    } else {
      assert comma.0 == "";
      assert "" + (Prefix(l) + token) == Prefix(l) + token;
    }
  }

  /** A list comes out with commas between its tokens, whatever was printed
      before; a `comma` after it is due if it was due before the list or the list
      has a token. */
  lemma ListIsSeparated(l: Layout, items: seq<Item>, tokens: seq<string>)
    requires TokenList(items, tokens)
    ensures Balanced(items)
    ensures Render(l, items, |items|)
         == ((if tokens == [] then "" else Prefix(l)) + Separated(tokens),
             l.(newLine := l.newLine && tokens == [], needsComma := l.needsComma || tokens != []))
  {
    var n := 2 * |tokens| + 1;
    TokensSoFar(l, items, tokens, |tokens|);
    assert tokens[..|tokens|] == tokens;
    ListEnds(l, items, n, WithinList(l, |tokens|), ListText(l, tokens));
  }

  lemma ListEnds(l: Layout, items: seq<Item>, n: nat, inside: Layout, text: string)
    requires n < |items| && BalancedTo(items, n) && Depth(items, n) == 1 && items[n] == EndComma
    requires Render(l, items, n) == (text, inside) && inside.commaStack == l.commaStack + [l.needsComma]
    ensures BalancedTo(items, n + 1)
    ensures Render(l, items, n + 1)
         == (text, inside.(needsComma := l.needsComma || inside.needsComma, commaStack := l.commaStack))
  {
    assert text + "" == text;
    assert inside.commaStack[..|l.commaStack|] == l.commaStack;
  }

  /** A comment of one line: each of its lines is indented like what follows, and
      the text stands behind an asterisk. */
  lemma CommentIsStarred(l: Layout, text: string)
    requires l.newLine && !l.javaDocMode
    ensures var items := [BeginDoc, Print(text), Newline, EndDoc];
            var margin := Spaces(l.indent);
            && Balanced(items)
            && Render(l, items, 4) == (margin + "/**" + LINE + margin + " * " + text + LINE + margin + " */" + LINE,
                                       l.(needsComma := true))
  {
    var items := [BeginDoc, Print(text), Newline, EndDoc];
    var margin := Spaces(l.indent);
    FlatIsBalanced(items, 1);
    FlatIsBalanced(items, 2);
    FlatIsBalanced(items, 3);
    FlatIsBalanced(items, 4);
    RenderOne(l, items);
    var inside := l.(newLine := true, needsComma := true, javaDocMode := true);
    var first := margin + "/**" + LINE;
    CommentBegins(l);
    RenderStep(l, items, 1);
    RenderStep(l, items, 2);
    RenderStep(l, items, 3);
    CommentSteps(inside, text);
    Associative(first, margin + " * ", text);
    Associative(first, margin, " * ");
    Associative(first + margin + " * " + text + LINE, margin + " */", LINE);
    Associative(first + margin + " * " + text + LINE, margin, " */");
  }

  lemma CommentBegins(l: Layout)
    requires l.newLine && !l.javaDocMode
    ensures Step(l, BeginDoc) == (Spaces(l.indent) + "/**" + LINE, l.(needsComma := true, javaDocMode := true))
  {
    assert Prefix(l) == Spaces(l.indent);
  }

  lemma CommentSteps(inside: Layout, text: string)
    requires inside.newLine && inside.javaDocMode
    ensures Step(inside, Print(text))
         == (Spaces(inside.indent) + " * " + text, inside.(newLine := false, needsComma := true))
    ensures Step(inside.(newLine := false, needsComma := true), Newline) == (LINE, inside.(needsComma := true))
    ensures Step(inside.(needsComma := true), EndDoc)
         == (Spaces(inside.indent) + " */" + LINE, inside.(needsComma := true, javaDocMode := false))
  {
    assert Spaces(inside.indent) + "" == Spaces(inside.indent);
  }

  // ---------------------------------------------------------------- what a cancelled member leaves

  /** Layouts that lay out the same; comma modes left open do not show. */
  predicate Same(l: Layout, k: Layout) {
    l.indent == k.indent && l.newLine == k.newLine && l.needsComma == k.needsComma && l.javaDocMode == k.javaDocMode
  }

  /** One call on two such layouts, whose comma modes end in the same way. */
  lemma SameStep(l: Layout, k: Layout, ls: seq<bool>, ks: seq<bool>, modes: seq<bool>, item: Item)
    returns (modes': seq<bool>)
    requires Same(l, k) && l.commaStack == ls + modes && k.commaStack == ks + modes
    requires item.EndComma? ==> modes != []
    ensures Step(l, item).0 == Step(k, item).0 && Same(Step(l, item).1, Step(k, item).1)
    ensures Step(l, item).1.commaStack == ls + modes' && Step(k, item).1.commaStack == ks + modes'
  {
    modes' := modes;
    if item.BeginComma? {
      modes' := modes + [l.needsComma];
      assert ls + modes' == (ls + modes) + [l.needsComma];
      assert ks + modes' == (ks + modes) + [l.needsComma];
    } else if item.EndComma? {
      var top := |modes| - 1;
      modes' := modes[..top];
      assert (ls + modes)[..|ls| + top] == ls + modes';
      assert (ks + modes)[..|ks| + top] == ks + modes';
    }
  }

  /** The comma modes that the items themselves begin lie on top of the others. */
  lemma {:induction false} SameRenders(l: Layout, k: Layout, items: seq<Item>, n: nat) returns (modes: seq<bool>)
    requires Same(l, k) && n <= |items| && BalancedTo(items, n)
    ensures Render(l, items, n).0 == Render(k, items, n).0
    ensures Same(Render(l, items, n).1, Render(k, items, n).1)
    ensures Render(l, items, n).1.commaStack == l.commaStack + modes
    ensures Render(k, items, n).1.commaStack == k.commaStack + modes
  {
    if n == 0 {
      modes := [];
    } else {
      modes := SameRenders(l, k, items, n - 1);
      modes := SameStep(Render(l, items, n - 1).1, Render(k, items, n - 1).1, l.commaStack, k.commaStack, modes,
                        items[n - 1]);
    }
  }

  function Ins(k: nat): (items: seq<Item>)
    ensures |items| == k && forall i | 0 <= i < k :: items[i] == In
  {
    seq(k, _ => In)
  }

  lemma RenderIn(l: Layout, items: seq<Item>, n: nat)
    requires n < |items| && BalancedTo(items, n + 1) && items[n] == In
    ensures Render(l, items, n + 1)
         == (Render(l, items, n).0, Render(l, items, n).1.(indent := Render(l, items, n).1.indent + 1))
  {
    var before := Render(l, items, n);
    assert before.0 + "" == before.0;
  }

  lemma {:induction false} InsIndent(l: Layout, items: seq<Item>, from: nat, n: nat)
    requires from + n <= |items| && BalancedTo(items, from) && BalancedTo(items, from + n)
    requires forall i | from <= i < from + n :: items[i] == In
    ensures Render(l, items, from + n)
         == (Render(l, items, from).0, Render(l, items, from).1.(indent := Render(l, items, from).1.indent + n))
  {
    if n > 0 {
      BalancedBefore(items, from + n - 1, from + n);
      InsIndent(l, items, from, n - 1);
      RenderIn(l, items, from + n - 1);
    }
  }

  lemma {:induction false} FlatIsBalanced(items: seq<Item>, n: nat)
    requires n <= |items| && forall i | 0 <= i < |items| :: !items[i].BeginComma? && !items[i].EndComma?
    ensures BalancedTo(items, n) && Depth(items, n) == 0
  {
    if n > 0 {
      FlatIsBalanced(items, n - 1);
    }
  }

  lemma RenderPrint(l: Layout, items: seq<Item>, n: nat, text: string)
    requires n < |items| && BalancedTo(items, n + 1) && items[n] == Print(text)
    ensures |Render(l, items, n + 1).0| == |Render(l, items, n).0| + |Prefix(Render(l, items, n).1)| + |text|
  {
  }

  lemma PrefixLength(l: Layout)
    requires l.indent > 0
    ensures |Prefix(l)| == if l.newLine then 2 * l.indent + (if l.javaDocMode then 3 else 0) else 0
  {
    SpacesLength(l.indent);
  }

  lemma {:induction false} SpacesLength(n: nat)
    ensures |Spaces(n)| == 2 * n && forall k | 0 <= k < 2 * n :: Spaces(n)[k] == ' '
  {
    if n > 0 {
      SpacesLength(n - 1);
    }
  }

  /** Indented far enough, an empty print shows indentation and comment mode. */
  lemma ProbeShows(l: Layout, first: seq<Item>, k: nat)
    requires |first| <= 1 && (first != [] ==> first[0] == Newline) && l.indent + k > 0
    ensures Balanced(first + Ins(k) + [Print("")])
    ensures |Render(l, first + Ins(k) + [Print("")], |first| + k + 1).0|
         == (if first == [] then 0 else |LINE|)
            + (if l.newLine || first != [] then 2 * (l.indent + k) + (if l.javaDocMode then 3 else 0) else 0)
  {
    var items := first + Ins(k) + [Print("")];
    var n := |first| + k;
    FlatIsBalanced(items, |first|);
    FlatIsBalanced(items, n);
    FlatIsBalanced(items, n + 1);
    FirstRendered(l, items, |first|);
    InsIndent(l, items, |first|, k);
    RenderPrint(l, items, n, "");
    PrefixLength(Render(l, items, n).1);
  }

  lemma FirstRendered(l: Layout, items: seq<Item>, n: nat)
    requires n <= 1 && n <= |items| && BalancedTo(items, n) && (n == 1 ==> items[0] == Newline)
    ensures Render(l, items, n) == (if n == 0 then "" else LINE, l.(newLine := l.newLine || n == 1))
  {
    if n == 1 {
      RenderOne(l, items);
    }
  }

  /** Two layouts that are not the same can be told apart by some text. */
  lemma ToldApart(l: Layout, k: Layout) returns (items: seq<Item>)
    requires !Same(l, k)
    ensures Balanced(items) && Render(l, items, |items|).0 != Render(k, items, |items|).0
  {
    if l.indent == k.indent && l.newLine == k.newLine && l.javaDocMode == k.javaDocMode {
      items := [Comma];
      FlatIsBalanced(items, |items|);
      RenderOne(l, items);
      RenderOne(k, items);
      CommaShows(l);
      CommaShows(k);
    } else {
      var first := if l.newLine != k.newLine then [] else [Newline];
      var far: nat :=
        1 + (if l.indent < 0 then -l.indent else l.indent) + (if k.indent < 0 then -k.indent else k.indent);
      items := first + Ins(far) + [Print("")];
      ProbeShows(l, first, far);
      ProbeShows(k, first, far);
      assert |items| == |first| + far + 1;
      Probed(l, k, first, far);
    }
  }

  lemma RenderOne(l: Layout, items: seq<Item>)
    requires |items| > 0 && BalancedTo(items, 1)
    ensures Render(l, items, 1) == Step(l, items[0])
  {
    assert Render(l, items, 0) == ("", l);
    assert "" + Step(l, items[0]).0 == Step(l, items[0]).0;
  }

  /** The probe's lengths differ: two columns a level, an odd number for a comment. */
  lemma Probed(l: Layout, k: Layout, first: seq<Item>, far: nat)
    requires first == if l.newLine != k.newLine then [] else [Newline]
    requires l.indent + far > 0 && k.indent + far > 0
    requires !(l.indent == k.indent && l.newLine == k.newLine && l.javaDocMode == k.javaDocMode)
    ensures (if l.newLine || first != [] then 2 * (l.indent + far) + (if l.javaDocMode then 3 else 0) else 0)
         != (if k.newLine || first != [] then 2 * (k.indent + far) + (if k.javaDocMode then 3 else 0) else 0)
  {}

  lemma CommaShows(l: Layout)
    ensures (Step(l, Comma).0 == "") == !l.needsComma
  {}

  /** A cancelled member goes unnoticed by everything that may follow if and only
      if it put the layout back to what it was. */
  lemma CancelUnnoticedIffRestored(before: Layout, after: Layout)
    ensures Same(before, after) <==>
              forall items | Balanced(items) :: Render(before, items, |items|).0 == Render(after, items, |items|).0
  {
    if Same(before, after) {
      forall items | Balanced(items)
        ensures Render(before, items, |items|).0 == Render(after, items, |items|).0
      {
        var _ := SameRenders(before, after, items, |items|);
      }
    } else {
      var items := ToldApart(before, after);
    }
  }

  /** If every failed member restores the layout, the output is the text of the
      other members laid out as if the failed ones had not been there. */
  lemma {:induction false} FailuresLeaveNoTrace(l: Layout, members: seq<Member>, n: nat)
    requires n <= |members| && AllBalanced(members)
    requires forall i, k: Layout | 0 <= i < |members| && members[i].fails ::
               Same(k, Render(k, members[i].items, |members[i].items|).1)
    ensures Output(l, members, n, false).0 == Output(l, members, n, true).0
    ensures Same(Output(l, members, n, false).1, Output(l, members, n, true).1)
  {
    if n > 0 {
      FailuresLeaveNoTrace(l, members, n - 1);
      var m := members[n - 1];
      var _ := SameRenders(Output(l, members, n - 1, false).1, Output(l, members, n - 1, true).1, m.items, |m.items|);
    }
  }

  /** It does leave a trace when a failed member had indented: the parameters of
      the next one move to the right. */
  lemma IndentationLeaks()
    ensures var failed := Member(false, "f", [Newline, In], true);
            var next := Member(false, "g", [Newline, Print("x")], false);
            && AllBalanced([failed, next])
            && Output(Layout(0, false, false, [], false), [failed, next], 2, false).0 == [LINE + "  x"]
            && Output(Layout(0, false, false, [], false), [failed, next], 2, true).0 == [LINE + "x"]
  {
    var l := Layout(0, false, false, [], false);
    var failed, next := Member(false, "f", [Newline, In], true), Member(false, "g", [Newline, Print("x")], false);
    var members := [failed, next];
    FlatIsBalanced(failed.items, |failed.items|);
    FlatIsBalanced(next.items, |next.items|);
    RenderOne(l, failed.items);
    assert Render(l, failed.items, 2).1 == l.(newLine := true, indent := 1);
    assert Output(l, members, 0, false) == ([], l) && Output(l, members, 0, true) == ([], l);
    assert Output(l, members, 1, false) == ([], l.(newLine := true, indent := 1));
    assert Output(l, members, 1, true) == ([], l);
    RenderNext(l.(newLine := true, indent := 1));
    RenderNext(l);
    assert !Skipped(members, 1);
    assert Render(l, next.items, 2).0 == LINE + "x" by {
      assert Prefix(l.(newLine := true)) + "x" == "x";
    }
    assert Render(l.(newLine := true, indent := 1), next.items, 2).0 == LINE + "  x" by {
      assert Spaces(1) == Spaces(0) + "  " && Spaces(0) == "";
      assert Prefix(l.(newLine := true, indent := 1)) == "  ";
    }
    assert Output(l, members, 2, true).0 == [] + [Render(l, next.items, 2).0];
    assert Output(l, members, 2, false).0 == [] + [Render(l.(newLine := true, indent := 1), next.items, 2).0];
  }

  lemma RenderNext(l: Layout)
    ensures Balanced([Newline, Print("x")])
    ensures Render(l, [Newline, Print("x")], 2).0 == LINE + (Prefix(l.(newLine := true)) + "x")
  {
    var items := [Newline, Print("x")];
    FlatIsBalanced(items, |items|);
    RenderOne(l, items);
  }

  /** A property put that fails takes the propputref of its name with it. */
  lemma LostSetter(l: Layout, members: seq<Member>, put: nat)
    requires put < |members| && AllBalanced(members)
    requires FirstPut(members, members[put].name, put) && members[put].fails
    ensures forall i | i in Written(members, |members|) :: !PutOf(members[i], members[put].name)
    ensures |members| == 2 && put == 0 && PutOf(members[1], members[0].name) ==> Output(l, members, 2, false).0 == []
  {
    PutComesOutIff(members, members[put].name);
    forall i: nat | FirstPut(members, members[put].name, i)
      ensures i == put
    {
      OneFirstPut(members, members[put].name, i, put);
    }
    if |members| == 2 && put == 0 && PutOf(members[1], members[0].name) {
      assert Output(l, members, 0, false).0 == [];
      assert members[0].isPut && members[0].name == members[1].name;
      assert Skipped(members, 1);
    }
  }

  lemma OneFirstPut(members: seq<Member>, name: string, i: nat, j: nat)
    requires FirstPut(members, name, i) && FirstPut(members, name, j)
    ensures i == j
  {
  }
}

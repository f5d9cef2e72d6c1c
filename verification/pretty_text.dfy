/**
 From an object to its pretty text, and back: `to_string` of `PrettyPrinter.cpp`, and the law that
 the reader makes the same object of what it wrote.
 */
module PrettyText {
  import opened Wrappers
  import opened GoosObjects
  import opened ReadBack
  import opened ReadLaws
  import opened FormTokens
  import opened Parens
  import opened PrettyLayout
  import opened PrettyList
  import opened PrettyPrinter
  import opened PrettyBreaks

  // ---------------------------------------------------------------------------------------------
  // Building the list
  // ---------------------------------------------------------------------------------------------

  /** The first `|nodes|` nodes, linked to each other. */
  ghost predicate Chained(ts: seq<FormToken>, nodes: seq<Node>)
    reads nodes
  {
    |nodes| <= |ts| && forall i :: 0 <= i < |nodes| ==> LinkedAt(ts, nodes, i)
  }

  ghost predicate LinkedAt(ts: seq<FormToken>, nodes: seq<Node>, i: nat)
    requires i < |nodes| <= |ts|
    reads nodes[i]
  {
    && nodes[i].pos == i && nodes[i].tok == ts[i] && !nodes[i].isLineSeparator && nodes[i].lineIndent == 0
    && nodes[i].line == 0
    && nodes[i].next == (if i + 1 < |nodes| then nodes[i + 1] else null)
    && nodes[i].prev == (if i > 0 then nodes[i - 1] else null)
  }

  method BuildNodes(ts: seq<FormToken>) returns (nodes: seq<Node>)
    ensures |nodes| == |ts| && Chained(ts, nodes) && forall k :: 0 <= k < |nodes| ==> fresh(nodes[k])
  {
    nodes := [];
    for i := 0 to |ts|
      invariant |nodes| == i && Chained(ts, nodes) && forall k :: 0 <= k < |nodes| ==> fresh(nodes[k])
    {
      label L:
      var node := new Node.Token(ts[i], i);
      if i > 0 {
        assert LinkedAt(ts, nodes, i - 1) && fresh(nodes[i - 1]);
        node.prev := nodes[i - 1];
        nodes[i - 1].next := node;
      }
      ghost var before := nodes;
      nodes := nodes + [node];
      forall k | 0 <= k < |nodes| ensures LinkedAt(ts, nodes, k) {
        if k < i { assert old@L(LinkedAt(ts, before, k)); }
      }
    }
  }

  method BuildList(ts: seq<FormToken>) returns (list: TokenList, nodes: seq<Node>)
    requires WellFormed(ts)
    ensures fresh(list) && fresh(list.repr) && list.tokens == ts && list.Valid() && list.toks == nodes
    ensures forall i :: 0 <= i < |ts| ==> !list.Breaks()[i]
    ensures nodes[0].lineIndent == 0
  {
    nodes := BuildNodes(ts);
    list := new TokenList(ts, nodes);
    forall i | 0 <= i < |nodes|
      ensures list.TokenOk(i) && list.SepOk(i) { assert LinkedAt(ts, nodes, i) && nodes[i] in list.repr; }
    assert LinkedAt(ts, nodes, 0);
  }

  /** The stack of open parens holds the nodes of those still open before token `i`. */
  ghost predicate StackHolds(ts: seq<FormToken>, nodes: seq<Node>, stack: seq<Node?>, i: nat) {
    && i <= |ts| == |nodes| && |stack| == |StackOf(ts, i)| + 1
    && forall k :: 0 <= k < |StackOf(ts, i)| ==> StackOf(ts, i)[k] < i && stack[k + 1] == nodes[StackOf(ts, i)[k]]
  }

  /** The open paren `j` is not closed before token `i`. */
  ghost predicate StillOpen(ts: seq<FormToken>, i: nat, j: nat)
    requires i <= |ts|
  {
    exists k :: 0 <= k < |StackOf(ts, i)| && StackOf(ts, i)[k] == j
  }

  lemma StillOpenStep(ts: seq<FormToken>, i: nat, j: nat)
    requires i < |ts|
    ensures ts[i] == Open ==> StillOpen(ts, i + 1, i) && (StillOpen(ts, i, j) ==> StillOpen(ts, i + 1, j))
    ensures ts[i] != Open && ts[i] != Close && StillOpen(ts, i, j) ==> StillOpen(ts, i + 1, j)
    ensures ts[i] == Close && StillOpen(ts, i, j) ==>
        StillOpen(ts, i + 1, j) || StackOf(ts, i)[|StackOf(ts, i)| - 1] == j
  {
    var st, st' := StackOf(ts, i), StackOf(ts, i + 1);
    if ts[i] == Open { assert st'[|st|] == i; }
    if StillOpen(ts, i, j) {
      var k :| 0 <= k < |st| && st[k] == j;
      assert k < |st'| ==> st'[k] == st[k];
    }
  }

  /** The parens before token `i` are linked, but for those still open. */
  ghost predicate LinkedUpTo(list: TokenList, i: nat)
    reads list`toks, list.toks`paren
  {
    && i <= |list.toks| == |list.tokens|
    && forall j :: 0 <= j < i && (list.tokens[j] == Open ==> !StillOpen(list.tokens, i, j)) ==> ParenOk(list, j)
  }

  lemma OpenLinks(list: TokenList, i: nat)
    requires list.Valid() && i < |list.toks| && LinkedUpTo(list, i) && list.tokens[i] == Open
    ensures LinkedUpTo(list, i + 1)
  {
    forall j | 0 <= j < i + 1 && (list.tokens[j] == Open ==> !StillOpen(list.tokens, i + 1, j))
      ensures ParenOk(list, j) {
      StillOpenStep(list.tokens, i, j);
    }
  }

  lemma TokenAt(list: TokenList, i: nat)
    requires list.Valid() && i < |list.toks|
    ensures list.IsToken(list.toks[i]) && list.toks[i].pos == i && list.toks[i].tok == list.tokens[i]
            && list.toks[i] in list.repr
  {
    assert list.TokenOk(i);
  }

  method AttachParens(list: TokenList, nodes: seq<Node>)
    requires list.Valid() && list.toks == nodes
    modifies list.repr`paren
    ensures Linked(list)
  {
    assert LinkedUpTo(list, 0);
    var parenStack: seq<Node?> := [null];
    for i := 0 to |nodes|
      invariant StackHolds(list.tokens, nodes, parenStack, i) && LinkedUpTo(list, i)
    {
      parenStack := AttachNext(list, nodes, parenStack, i);
    }
    forall j | 0 <= j < |nodes| ensures ParenOk(list, j) { assert !StillOpen(list.tokens, |nodes|, j); }
  }

  method AttachNext(list: TokenList, nodes: seq<Node>, parenStack: seq<Node?>, i: nat) returns (stack: seq<Node?>)
    requires list.Valid() && list.toks == nodes && i < |nodes| && StackHolds(list.tokens, nodes, parenStack, i)
             && LinkedUpTo(list, i)
    modifies list.repr`paren
    ensures StackHolds(list.tokens, nodes, stack, i + 1) && LinkedUpTo(list, i + 1)
  {
    hide StackHolds, LinkedUpTo, PrettyList.TokenList.Valid;
    TokenAt(list, i);
    ClosesAreSound(list, i);
    StackStep(list.tokens, nodes, parenStack, i);
    if nodes[i].tok == Open {
      stack := parenStack + [nodes[i]];
      OpenLinks(list, i);
    } else if nodes[i].tok == Close {
      CloseMatches(list.tokens, i);
      ghost var st := StackOf(list.tokens, i);
      var open := parenStack[|parenStack| - 1];
      TokenAt(list, st[|st| - 1]);
      LinkPair(list, nodes[i], open);
      stack := parenStack[..|parenStack| - 1];
    } else {
      stack := parenStack;
      SetParen(list, nodes[i], parenStack[|parenStack| - 1]);
    }
  }

  lemma ClosesAreSound(list: TokenList, i: nat)
    requires list.Valid() && i < |list.toks|
    ensures i < |list.toks| == |list.tokens| && ClosesSound(list.tokens, i + 1)
  {
  }

  lemma StackStep(ts: seq<FormToken>, nodes: seq<Node>, stack: seq<Node?>, i: nat)
    requires i < |ts| && StackHolds(ts, nodes, stack, i)
    ensures |stack| > 0 && |nodes| == |ts|
    ensures ts[i] == Open ==> StackHolds(ts, nodes, stack + [nodes[i]], i + 1)
    ensures ts[i] == Close && StackOf(ts, i) != [] ==>
              var open := StackOf(ts, i)[|StackOf(ts, i)| - 1];
              open < i && stack[|stack| - 1] == nodes[open] && StackHolds(ts, nodes, stack[..|stack| - 1], i + 1)
    ensures ts[i] != Open && ts[i] != Close ==> StackHolds(ts, nodes, stack, i + 1)
  {
  }

  /** Tokens that are no parens are given the list they are in. */
  method SetParen(list: TokenList, n: Node, paren: Node?)
    requires list.Valid() && list.IsToken(n) && n.tok != Open && n.tok != Close && LinkedUpTo(list, n.pos)
    modifies n`paren
    ensures LinkedUpTo(list, n.pos + 1)
  {
    EachAtItsPlace(list);
    NodeIs(list, n);
    ghost var i := n.pos;
    n.paren := paren;
    forall j | 0 <= j < i + 1 && (list.tokens[j] == Open ==> !StillOpen(list.tokens, i + 1, j))
      ensures ParenOk(list, j) {
      StillOpenStep(list.tokens, i, j);
      if j < i { assert old(ParenOk(list, j)); }
    }
  }

  method LinkPair(list: TokenList, n: Node, open: Node)
    requires list.Valid() && list.IsToken(n) && list.IsToken(open) && Matches(list.tokens, open.pos, n.pos)
             && LinkedUpTo(list, n.pos)
    requires StackOf(list.tokens, n.pos) != []
             && StackOf(list.tokens, n.pos)[|StackOf(list.tokens, n.pos)| - 1] == open.pos
    modifies n`paren, open`paren
    ensures LinkedUpTo(list, n.pos + 1)
  {
    hide WellFormed, StackOf, StillOpen;
    EachAtItsPlace(list);
    NodeIs(list, n);
    NodeIs(list, open);
    n.paren := open;
    open.paren := n;
    ghost var i := n.pos;
    forall j | 0 <= j < i + 1 && (list.tokens[j] == Open ==> !StillOpen(list.tokens, i + 1, j))
      ensures ParenOk(list, j) {
      StillOpenStep(list.tokens, i, j);
      if j != i && j != open.pos { assert old(ParenOk(list, j)); }
    }
  }

  /** The special forms: any sequence of breaks asked for behind or before tokens. */
  method InsertSpecialBreaks(list: TokenList, nodes: seq<Node>, special: seq<(bool, nat)>)
    requires Linked(list) && list.toks == nodes
    modifies list`seps, list`repr, list.repr`next, list.repr`prev
    ensures Linked(list) && Grown(list) && BreaksKept(old(list.Breaks()), list.Breaks())
  {
    for i := 0 to |special|
      invariant Linked(list) && Grown(list) && BreaksKept(old(list.Breaks()), list.Breaks())
    {
      var (behind, at) := special[i];
      if at < |nodes| {
        TokenAt(list, at);
        if behind { list.InsertNewlineAfter(nodes[at]); } else { list.InsertNewlineBefore(nodes[at]); }
      }
    }
  }

  // ---------------------------------------------------------------------------------------------
  // Writing it out
  // ---------------------------------------------------------------------------------------------

  /** The text up to token `i`. */
  ghost function TextUpTo(ts: seq<FormToken>, fills: seq<string>, i: nat): string
    requires i <= |ts| == |fills|
  {
    if i == 0 then "" else TextUpTo(ts, fills, i - 1) + (fills[i - 1] + Spelled(ts[i - 1]))
  }

  lemma {:induction false} TextIsRender(ts: seq<FormToken>, fills: seq<string>, i: nat)
    requires i <= |ts| == |fills|
    ensures TextUpTo(ts, fills, i) == Render(ts[..i], fills[..i])
  {
    if i > 0 {
      TextIsRender(ts, fills, i - 1);
      assert ts[..i] == ts[..i - 1] + [ts[i - 1]] && fills[..i][..i - 1] == fills[..i - 1]
          && fills[..i][i - 1..] == [fills[i - 1]];
      RenderAppend(ts[..i - 1], [ts[i - 1]], fills[..i]);
      assert Render([ts[i - 1]][1..], [fills[i - 1]][1..]) == "";
    }
  }

  /** What was written when the loop is at `n`. */
  ghost predicate WrittenTo(list: TokenList, n: Node, text: string)
    reads list`toks, list`seps
  {
    var i := Ahead(n);
    && i < |list.toks| == |list.tokens| == |list.seps|
    && var fills := Fills(list.tokens, list.Breaks());
       text == TextUpTo(list.tokens, fills, i) + if !n.isLineSeparator && i > 0
           && list.Breaks()[i - 1] then "\n" else ""
  }

  lemma PlaceOf(list: TokenList, n: Node)
    requires list.Valid() && list.IsToken(n) && Placed(list, |list.toks|) && (n.pos == 0 ==> n.lineIndent == 0)
    ensures n.pos < |list.tokens| == |list.Breaks()| && n.tok == list.tokens[n.pos]
    ensures n.pos == 0 || list.Breaks()[n.pos - 1] ==> n.lineIndent == OffsetAt(list.tokens, list.Breaks(), n.pos)
    ensures list.tokens[0] != Space
  {
    NodeIs(list, n);
  }

  /** One token: at the start of a line its indentation comes first, and a space is left out. */
  method WriteToken(list: TokenList, n: Node, text: string, newlinePrev: bool) returns (after: string)
    requires list.Valid() && list.IsToken(n) && Placed(list, |list.toks|) && WrittenTo(list, n, text)
    requires newlinePrev == (n.pos == 0 || list.Breaks()[n.pos - 1]) && (n.pos == 0 ==> n.lineIndent == 0)
    ensures n.pos < |list.tokens| == |list.seps|
            && after == TextUpTo(list.tokens, Fills(list.tokens, list.Breaks()), n.pos + 1)
  {
    hide PrettyList.TokenList.Valid, Placed, OffsetAt, Spaces, TextUpTo;
    PlaceOf(list, n);
    ghost var ts, breaks := list.tokens, list.Breaks();
    ghost var before := TextUpTo(ts, Fills(ts, breaks), n.pos);
    after := text;
    if newlinePrev {
      var margin := Spaces(n.lineIndent);
      after := after + margin;
      MarginIsFill(ts, breaks, n.pos, before, margin);
    }
    var written := if n.tok == Space && newlinePrev then "" else if n.tok == Space then " " else Spelled(n.tok);
    after := after + written;
    TextGoesOn(ts, breaks, n.pos, text, newlinePrev, written);
  }

  lemma MarginIsFill(ts: seq<FormToken>, breaks: seq<bool>, i: nat, before: string, margin: string)
    requires i < |ts| == |breaks| && margin == Spaces(OffsetAt(ts, breaks, i)) && ts[0] != Space
    ensures i > 0 && breaks[i - 1] ==> before + "\n" + margin == before + FillAt(ts, breaks, i)
    ensures i == 0 ==> margin == "" == FillAt(ts, breaks, i) && before + margin == before
  {
    Regroup(before, "\n", margin);
  }

  lemma TextGoesOn(ts: seq<FormToken>, breaks: seq<bool>, i: nat, text: string, newlinePrev: bool, written: string)
    requires i < |ts| == |breaks| && newlinePrev == (i == 0 || breaks[i - 1]) && ts[0] != Space
    requires written == if ts[i] == Space && newlinePrev then "" else if ts[i] == Space then " " else Spelled(ts[i])
    requires text == TextUpTo(ts, Fills(ts, breaks), i) + if i > 0 && newlinePrev then "\n" else ""
    ensures (if newlinePrev then text + Spaces(OffsetAt(ts, breaks, i)) else text) + written
        == TextUpTo(ts, Fills(ts, breaks), i + 1)
  {
    var before, fill := TextUpTo(ts, Fills(ts, breaks), i), FillAt(ts, breaks, i);
    MarginIsFill(ts, breaks, i, before, Spaces(OffsetAt(ts, breaks, i)));
    Regroup(before, fill, Spelled(ts[i]));
    assert before + "" == before && fill + "" == fill;
  }

  /** One node: a separator ends the line. */
  method WriteNode(list: TokenList, head: Node, n: Node, text: string, newlinePrev: bool)
      returns (next: Node?, after: string)
    requires list.Valid() && list.IsToken(head) && head.pos == 0 && head.lineIndent == 0 && Placed(list, |list.toks|)
    requires InList(list, n) && WrittenTo(list, n, text)
    requires !n.isLineSeparator ==> newlinePrev == (n.pos == 0 || list.Breaks()[n.pos - 1])
    ensures |list.tokens| == |list.toks| == |list.seps|
    ensures next == null ==> after == TextUpTo(list.tokens, Fills(list.tokens, list.Breaks()), |list.tokens|)
    ensures next != null ==> InList(list, next) && Ahead(next) < |list.toks| && WrittenTo(list, next, after)
    ensures next != null && !next.isLineSeparator ==>
        n.isLineSeparator == (next.pos == 0 || list.Breaks()[next.pos - 1])
    ensures next != null ==>
        Ahead(next) > Ahead(n) || (Ahead(next) == Ahead(n) && n.isLineSeparator && !next.isLineSeparator)
  {
    hide Placed, PrettyList.TokenList.Valid, Fills, TextUpTo;
    TokenCount(list);
    StepIsNext(list, n);
    next := n.next;
    if n.isLineSeparator {
      after := text + "\n";
      assert text + "" == text;
    } else {
      after := WriteToken(list, n, text, newlinePrev);
      assert after + "" == after;
    }
  }

  method Write(list: TokenList, head: Node) returns (text: string)
    requires Settled(list, head) && head.lineIndent == 0
    ensures |list.Breaks()| == |list.tokens| && text == Render(list.tokens, Fills(list.tokens, list.Breaks()))
  {
    hide Settled, Linked, Placed, PrettyList.TokenList.Valid, FillAt, Fills, OffsetAt, Render;
    SettledGives(list, head);
    PlacedGives(list, head);
    text := "";
    var newlinePrev := true;
    var n: Node? := head;
    ghost var fills := Fills(list.tokens, list.Breaks());
    assert TextUpTo(list.tokens, fills, 0) + "" == "";
    while n != null
      invariant n == null ==> text == TextUpTo(list.tokens, fills, |list.tokens|)
      invariant n != null ==> InList(list, n) && WrittenTo(list, n, text)
      invariant n != null && !n.isLineSeparator ==> newlinePrev == (n.pos == 0 || list.Breaks()[n.pos - 1])
      decreases if n == null then 0 else |list.toks| - Ahead(n) + 1, n != null && n.isLineSeparator
    {
      var separator := n.isLineSeparator;
      n, text := WriteNode(list, head, n, text, newlinePrev);
      newlinePrev := separator;
    }
    TextIsRender(list.tokens, fills, |list.tokens|);
    assert list.tokens[..|list.tokens|] == list.tokens && fills[..|list.tokens|] == fills;
  }

  lemma PlacedGives(list: TokenList, head: Node)
    requires Settled(list, head)
    ensures Placed(list, |list.toks|) && |Fills(list.tokens, list.Breaks())| == |list.tokens|
  {
  }

  // ---------------------------------------------------------------------------------------------
  // The whole
  // ---------------------------------------------------------------------------------------------

  /** The text is the object's tokens with breaks between some of them, and no break behind a quote mark. */
  ghost predicate LaidOut(o: Object, text: string, breaks: seq<bool>) {
    && |breaks| == |Toks(o, true)| && text == Render(Toks(o, true), Fills(Toks(o, true), breaks))
    && forall i :: 0 <= i < |breaks| && Toks(o, true)[i] == Quote ==> !breaks[i]
  }

  /** Every such text reads back as the object. */
  lemma LaidOutReadsBack(o: Object, text: string, breaks: seq<bool>)
    requires Printable(o, true) && LaidOut(o, text, breaks)
    ensures ReadsAs(text, o)
  {
    PrintableHasNoArrays(o);
    FormQuotesOk(o);
    FillsAreOk(Toks(o, true), breaks);
    LayoutReadsBack(o, true, Fills(Toks(o, true), breaks));
  }

  lemma PrintableHasNoArrays(o: Object)
    requires Printable(o, true)
    ensures NoArrays(o)
  {
  }

  /** `to_string`; objects with arrays in them throw. */
  method ToString(o: Object, lineLength: int, special: seq<(bool, nat)>) returns (r: Option<string>)
    ensures r.Some? <==> NoArrays(o)
    ensures r.Some? ==> exists breaks :: LaidOut(o, r.value, breaks)
    ensures Printable(o, true) ==> r.Some? && ReadsAs(r.value, o)
  {
    if Printable(o, true) { PrintableHasNoArrays(o); }
    if !NoArrays(o) { return None; }
    var ts := Toks(o, true);
    ToksWellFormed(o);
    var list, nodes := BuildList(ts);
    var head := nodes[0];
    var text, breaks := PrettyOf(list, head, nodes, lineLength, special);
    assert LaidOut(o, text, breaks);
    if Printable(o, true) { LaidOutReadsBack(o, text, breaks); }
    r := Some(text);
  }

  /** Parens, special breaks, breaks as needed, and the text. */
  method PrettyOf(list: TokenList, head: Node, nodes: seq<Node>, lineLength: int, special: seq<(bool, nat)>)
      returns (text: string, ghost breaks: seq<bool>)
    requires list.Valid() && list.toks == nodes && nodes != [] && head == nodes[0] && head.lineIndent == 0
    modifies list, list.repr
    ensures |breaks| == |list.tokens| && text == Render(list.tokens, Fills(list.tokens, breaks))
    ensures forall i :: 0 <= i < |breaks| && list.tokens[i] == Quote ==> !breaks[i]
  {
    hide Linked, PrettyList.TokenList.Valid, Settled, BreaksKept, NumberAll, FitsFrom;
    TokenAt(list, 0);
    AttachParens(list, nodes);
    InsertSpecialBreaks(list, nodes, special);
    PropagatePretty(list, head);
    var _ := InsertBreaksAsNeeded(list, head, lineLength);
    SettledGives(list, head);
    text := Write(list, head);
    breaks := list.Breaks();
    QuotesUnbroken(list);
  }

  lemma QuotesUnbroken(list: TokenList)
    requires list.Valid()
    ensures |list.Breaks()| == |list.tokens| && forall i :: 0 <= i < |list.tokens| && list.tokens[i] == Quote ==>
        !list.Breaks()[i]
  {
    forall i | 0 <= i < |list.tokens| && list.tokens[i] == Quote ensures !list.Breaks()[i] { assert list.SepOk(i); }
  }
}

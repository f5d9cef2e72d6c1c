/**
 The pretty printer of `PrettyPrinter.cpp` on its linked list: it breaks lists over lines until
 the lines are short enough, numbers and indents the lines, and writes the list out. The methods
 do what the functions of `PrettyLayout` say; breaks are all that they add.
 */
module PrettyPrinter {
  import opened FormTokens
  import opened Parens
  import opened PrettyLayout
  import opened PrettyList

  /** Open and close parens point at each other. */
  ghost predicate ParenOk(list: TokenList, i: nat)
    requires i < |list.toks|
    reads list`toks, list.toks`paren
  {
    var n := list.toks[i];
    && (n.tok == Open ==> n.paren != null && list.IsToken(n.paren) && Matches(list.tokens, i, n.paren.pos))
    && (n.tok == Close ==> n.paren != null && list.IsToken(n.paren) && Matches(list.tokens, n.paren.pos, i))
  }

  ghost predicate ParensLinked(list: TokenList)
    reads list`toks, list.toks`paren
  {
    forall i :: 0 <= i < |list.toks| ==> ParenOk(list, i)
  }

  ghost predicate Linked(list: TokenList)
    reads list`toks, list`seps, list`repr, list.repr`next, list.repr`prev, list.toks`paren
  {
    list.Valid() && ParensLinked(list)
  }

  /** The tokens are as they were; separators may have come. */
  twostate predicate Grown(list: TokenList)
    reads list
  {
    list.toks == old(list.toks) && old(list.repr) <= list.repr && fresh(list.repr - old(list.repr))
  }

  /** Which token comes next: the node itself, or the one behind the separator. */
  ghost function Ahead(n: Node): nat { if n.isLineSeparator then n.pos + 1 else n.pos }

  ghost predicate InList(list: TokenList, n: Node)
    reads list`toks, list`seps
  {
    if n.isLineSeparator then n.pos + 1 < |list.toks| == |list.seps| && list.seps[n.pos] == n else list.IsToken(n)
  }

  lemma NodeIs(list: TokenList, n: Node)
    requires list.Valid() && list.IsToken(n)
    ensures n in list.repr && n.tok == list.tokens[n.pos]
  {
    assert list.TokenOk(n.pos);
  }

  /** Where a link leads. */
  lemma StepIsNext(list: TokenList, n: Node)
    requires list.Valid() && InList(list, n)
    ensures n.next == null ==> !n.isLineSeparator && n.pos == |list.toks| - 1
    ensures n.next != null ==>
        InList(list, n.next) && Ahead(n.next) == (if n.isLineSeparator then Ahead(n) else Ahead(n) + 1)
    ensures n.next != null ==> n.next.isLineSeparator == (!n.isLineSeparator && list.Breaks()[n.pos])
    ensures Ahead(n) < |list.toks| && (n.isLineSeparator ==> list.Breaks()[n.pos])
  {
    if n.isLineSeparator {
      assert list.SepOk(n.pos) && list.TokenOk(n.pos + 1);
    } else {
      assert list.TokenOk(n.pos) && list.SepOk(n.pos) && (n.pos + 1 < |list.toks| ==> list.TokenOk(n.pos + 1));
    }
  }

  /** And the link back. */
  lemma StepBack(list: TokenList, n: Node)
    requires list.Valid() && list.IsToken(n)
    ensures n.prev == null <==> n.pos == 0
    ensures n.prev != null ==> n.prev.isLineSeparator == list.Breaks()[n.pos - 1]
  {
    assert list.TokenOk(n.pos) && (n.pos > 0 ==> list.SepOk(n.pos - 1) && list.TokenOk(n.pos - 1));
  }

  // ---------------------------------------------------------------------------------------------
  // Breaking a list
  // ---------------------------------------------------------------------------------------------

  /** Inside the list `l` to `r`, not inside a list in it. */
  ghost predicate AtTop(ts: seq<FormToken>, l: nat, r: nat, n: nat) {
    Matches(ts, l, r) && l < n <= r && Depth(ts, n) == Depth(ts, l) + 1
  }

  /** One round of the loop: a break behind the entry, unless the token is a space. */
  method BreakEntry(list: TokenList, n: Node) returns (last: Node)
    requires Linked(list) && list.IsToken(n) && n.tok != Close
    modifies list`seps, list`repr, list.repr`next, list.repr`prev
    ensures Linked(list) && Grown(list) && list.IsToken(last) && last.pos == EntryEnd(list.tokens, n.pos)
    ensures list.Breaks() == if n.tok == Space then old(list.Breaks())
        else BrokenAfter(list.tokens, old(list.Breaks()), last.pos)
  {
    NodeIs(list, n);
    assert ParenOk(list, n.pos);
    last := n;
    if n.tok == Open {
      CloseOfIs(list.tokens, n.pos, n.pos + 1, n.paren.pos);
      last := n.paren;
    }
    if n.tok != Space { list.InsertNewlineAfter(last); }
  }

  /** The open paren's list, from its links. */
  lemma OpenIsLinked(list: TokenList, l: Node)
    requires Linked(list) && list.IsToken(l) && l.tok == Open
    ensures l.paren != null && list.IsToken(l.paren) && l.paren.pos == CloseOf(list.tokens, l.pos, l.pos + 1)
    ensures AtTop(list.tokens, l.pos, l.paren.pos, l.pos + 1)
  {
    assert ParenOk(list, l.pos) && list.TokenOk(l.pos);
    CloseOfIs(list.tokens, l.pos, l.pos + 1, l.paren.pos);
  }

  lemma EntryInside(list: TokenList, l: nat, r: nat, n: Node)
    requires Linked(list) && list.IsToken(n) && n.pos < r < |list.toks| && AtTop(list.tokens, l, r, n.pos)
    ensures n.tok != Close && n.pos <= EntryEnd(list.tokens, n.pos) < r
            && AtTop(list.tokens, l, r, EntryEnd(list.tokens, n.pos) + 1)
  {
    NodeIs(list, n);
    InsideIsClosed(list.tokens, l, r, n.pos);
    if n.tok == Open { OpenIsLinked(list, n); }
  }

  /** At `n` in the loop over the list that opens at `l` and closes at `rp`. */
  ghost predicate Breaking(list: TokenList, l: nat, rp: Node, n: Node)
    reads list`toks, list`seps, list`repr, list.repr`next, list.repr`prev, list.toks`paren
  {
    Linked(list) && list.IsToken(rp) && InList(list, n) && AtTop(list.tokens, l, rp.pos, Ahead(n))
  }

  /** A break behind the entry at `n`, and on to the next node. */
  method BreakNext(list: TokenList, ghost l: nat, rp: Node, n: Node) returns (next: Node)
    requires Breaking(list, l, rp, n) && n != rp && !n.isLineSeparator
    modifies list`seps, list`repr, list.repr`next, list.repr`prev
    ensures Breaking(list, l, rp, next) && Grown(list) && Ahead(next) > n.pos
    ensures EntriesBroken(list.tokens, list.Breaks(), Ahead(next), rp.pos)
        == EntriesBroken(list.tokens, old(list.Breaks()), n.pos, rp.pos)
  {
    EntryInside(list, l, rp.pos, n);
    EntriesStep(list.tokens, list.Breaks(), n.pos, rp.pos);
    NodeIs(list, n);
    var last := BreakEntry(list, n);
    StepIsNext(list, last);
    next := last.next;
  }

  method BreakList(list: TokenList, leftParen: Node)
    requires Linked(list) && list.IsToken(leftParen) && leftParen.tok == Open
    modifies list`seps, list`repr, list.repr`next, list.repr`prev
    ensures Linked(list) && Grown(list)
    ensures list.Breaks() == ListBroken(list.tokens, old(list.Breaks()), leftParen.pos)
            && BreaksKept(old(list.Breaks()), list.Breaks())
  {
    ghost var l := leftParen.pos;
    OpenIsLinked(list, leftParen);
    var rp := leftParen.paren;
    EntriesBrokenInside(list.tokens, list.Breaks(), l + 1, rp.pos);
    StepIsNext(list, leftParen);
    var n: Node := leftParen.next;
    while n != rp
      invariant Breaking(list, l, rp, n) && Grown(list)
      invariant EntriesBroken(list.tokens, list.Breaks(), Ahead(n), rp.pos)
          == EntriesBroken(list.tokens, old(list.Breaks()), l + 1, rp.pos)
      decreases rp.pos - Ahead(n), if n.isLineSeparator then 1 else 0
    {
      if n.isLineSeparator {
        StepIsNext(list, n);
        n := n.next;
      } else {
        n := BreakNext(list, l, rp, n);
      }
    }
  }

  // ---------------------------------------------------------------------------------------------
  // Line numbers
  // ---------------------------------------------------------------------------------------------

  lemma CloseIsLinked(list: TokenList, n: Node)
    requires Linked(list) && list.IsToken(n) && n.tok == Close
    ensures 0 < n.pos && n.paren != null && list.IsToken(n.paren)
            && n.paren.pos == OpenOf(list.tokens, n.pos, n.pos - 1)
    ensures BeforeQuotes(list.tokens, n.pos) == n.pos && AfterQuotes(list.tokens, n.pos) == n.pos
  {
    assert ParenOk(list, n.pos) && list.TokenOk(n.pos);
    OpenOfIs(list.tokens, n.paren.pos, n.pos, n.pos - 1);
  }

  /** Puts a close paren on a line of its own; how often the counter moves on. */
  method SettleClose(list: TokenList, n: Node) returns (lines: int)
    requires Linked(list) && list.IsToken(n) && n.tok == Close
    modifies list`seps, list`repr, list.repr`next, list.repr`prev
    ensures Linked(list) && Grown(list) && 0 < n.pos && list.Breaks() == AloneBroken(old(list.Breaks()), n.pos)
    ensures lines == if old(list.Breaks())[n.pos - 1] then 0 else 1
  {
    CloseIsLinked(list, n);
    StepBack(list, n);
    lines := 0;
    if n.prev != null && !n.prev.isLineSeparator {
      list.InsertNewlineBefore(n);
      lines := 1;
    }
    assert list.Breaks() == old(list.Breaks())[n.pos - 1 := true];
    StepIsNext(list, n);
    if n.next != null && !n.next.isLineSeparator {
      list.InsertNewlineAfter(n);
    }
  }

  /** What the nodes say when the loop is at token `i`. */
  ghost predicate Recorded(list: TokenList, s: Numbering, i: nat)
    reads list`toks, list`seps, list.toks`line
  {
    |s.lines| == i <= |list.toks| && s.breaks == list.Breaks() && forall j :: 0 <= j < i ==>
        list.toks[j].line == s.lines[j]
  }

  /** The line counter at `n`: a separator right before a token is counted by then. */
  ghost predicate CounterIs(list: TokenList, s: Numbering, n: Node, line: int)
    reads list`seps
  {
    var i := Ahead(n);
    i <= |list.seps| && line == if !n.isLineSeparator && i > 0 && list.seps[i - 1] != null then s.line + 1 else s.line
  }

  lemma EachAtItsPlace(list: TokenList)
    requires list.Valid()
    ensures forall i :: 0 <= i < |list.toks| ==> list.toks[i].pos == i
  {
    forall i | 0 <= i < |list.toks| ensures list.toks[i].pos == i { assert list.TokenOk(i); }
  }

  method NumberToken(list: TokenList, n: Node, line: int, ghost s: Numbering) returns (after: int)
    requires Linked(list) && list.IsToken(n) && Recorded(list, s, n.pos) && CounterIs(list, s, n, line)
    modifies list`seps, list`repr, list.repr`next, list.repr`prev, n`line
    ensures Linked(list) && Grown(list)
    ensures n.pos < |list.tokens| == |s.breaks| && Recorded(list, NumberNext(list.tokens, s), n.pos + 1)
    ensures after == NumberNext(list.tokens, s).line
  {
    NodeIs(list, n);
    EachAtItsPlace(list);
    n.line := line;
    after := line;
    if n.tok == Close {
      CloseIsLinked(list, n);
      assert list.toks[n.paren.pos].line == s.lines[n.paren.pos];
      if n.line != n.paren.line {
        var lines := SettleClose(list, n);
        after := after + lines;
      }
    }
  }

  /** One round of the loop. */
  method NumberNode(list: TokenList, n: Node, line: int, ghost s: Numbering)
      returns (next: Node?, after: int, ghost s': Numbering)
    requires Linked(list) && InList(list, n) && Recorded(list, s, Ahead(n)) && CounterIs(list, s, n, line)
    modifies list`seps, list`repr, list.repr`next, list.repr`prev, n`line
    ensures Linked(list) && Grown(list) && Ahead(n) < |list.tokens| == |s.breaks|
    ensures s' == if n.isLineSeparator then s else NumberNext(list.tokens, s)
    ensures next == null ==> !n.isLineSeparator && n.pos == |list.toks| - 1 && Recorded(list, s', |list.toks|)
    ensures next != null ==> InList(list, next) && Recorded(list, s', Ahead(next)) && CounterIs(list, s', next, after)
    ensures next != null ==>
        Ahead(next) > Ahead(n) || (Ahead(next) == Ahead(n) && n.isLineSeparator && !next.isLineSeparator)
  {
    after, s' := line, s;
    if n.isLineSeparator {
      after := after + 1;
    } else {
      after := NumberToken(list, n, line, s);
      s' := NumberNext(list.tokens, s);
    }
    StepIsNext(list, n);
    next := n.next;
  }

  method NumberLines(list: TokenList, head: Node)
    requires Linked(list) && list.IsToken(head) && head.pos == 0
    modifies list`seps, list`repr, list.repr`next, list.repr`prev, list.repr`line
    ensures Linked(list) && Grown(list)
    ensures Recorded(list, NumberAll(list.tokens, Numbering(old(list.Breaks()), [], old(head.line))), |list.toks|)
  {
    var line := head.line;
    var n: Node? := head;
    ghost var s := Numbering(list.Breaks(), [], line);
    ghost var answer := NumberAll(list.tokens, s);
    while n != null
      invariant Linked(list) && Grown(list)
      invariant n == null ==> Recorded(list, answer, |list.toks|)
      invariant n != null ==>
          InList(list, n) && Recorded(list, s, Ahead(n)) && CounterIs(list, s, n, line)
              && NumberAll(list.tokens, s) == answer
      decreases if n == null then 0 else |list.toks| - Ahead(n) + 1, n != null && n.isLineSeparator
    {
      NodeInRepr(list, n);
      n, line, s := NumberNode(list, n, line, s);
    }
  }

  lemma NodeInRepr(list: TokenList, n: Node)
    requires list.Valid() && InList(list, n)
    ensures n in list.repr
  {
    if n.isLineSeparator { assert list.SepOk(n.pos); } else { assert list.TokenOk(n.pos); }
  }

  // ---------------------------------------------------------------------------------------------
  // Indentation
  // ---------------------------------------------------------------------------------------------

  /** The tokens before `i` stand where they should, and lines know their indentation. */
  ghost predicate Placed(list: TokenList, i: nat)
    reads list`toks, list`seps, list.toks`offset, list.toks`lineIndent
  {
    && i <= |list.toks| == |list.seps| == |list.tokens|
    && (forall j :: 0 <= j < i ==> list.toks[j].offset == OffsetAt(list.tokens, list.Breaks(), j))
    && (forall j :: 0 < j < i && list.seps[j - 1] != null ==>
          list.toks[j].lineIndent == OffsetAt(list.tokens, list.Breaks(), j))
  }

  /** The offset counter at token `i`, given whether a separator comes right before it. */
  ghost predicate OffsetIs(list: TokenList, i: nat, offset: int)
    reads list`seps
  {
    i < |list.seps| == |list.tokens| && offset == OffsetAt(list.tokens, list.Breaks(), i)
  }

  method PlaceToken(list: TokenList, n: Node, offset: int, afterSeparator: bool, indents: seq<int>)
      returns (after: int, stack: seq<int>)
    requires Linked(list) && list.IsToken(n) && Placed(list, n.pos) && OffsetIs(list, n.pos, offset)
    requires afterSeparator == (n.pos > 0 && list.seps[n.pos - 1] != null)
    requires indents == IndentStack(list.tokens, list.Breaks(), n.pos)
    modifies n`offset, n`lineIndent
    ensures Placed(list, n.pos + 1) && (!afterSeparator ==> n.lineIndent == old(n.lineIndent))
    ensures after == OffsetAt(list.tokens, list.Breaks(), n.pos) + Width(n.tok)
            && stack == IndentStack(list.tokens, list.Breaks(), n.pos + 1)
  {
    hide OffsetAt;
    NodeIs(list, n);
    EachAtItsPlace(list);
    StepBack(list, n);
    if afterSeparator { n.lineIndent := offset; }
    n.offset := offset;
    after := offset + Width(n.tok);
    stack := indents;
    if n.tok == Open {
      stack := stack + [if n.prev == null || n.prev.isLineSeparator then after + 1 else after - 1];
    }
    if n.tok == Close {
      assert StackOf(list.tokens, n.pos) != [];
      IndentStackIs(list.tokens, list.Breaks(), n.pos);
      stack := stack[..|stack| - 1];
    }
  }

  /** Gives every token its place and every line its indentation. */
  method LayOut(list: TokenList, head: Node)
    requires Linked(list) && list.IsToken(head) && head.pos == 0
    modifies list.repr`offset, list.repr`lineIndent
    ensures Placed(list, |list.toks|) && head.lineIndent == old(head.lineIndent)
  {
    var indents := [0];
    var offset := 0;
    var afterSeparator := false;
    var n: Node? := head;
    while n != null
      invariant n == null ==> Placed(list, |list.toks|)
      invariant n != null ==>
          InList(list, n) && Placed(list, Ahead(n)) && indents == IndentStack(list.tokens, list.Breaks(), Ahead(n))
      invariant n != null && !n.isLineSeparator ==>
          OffsetIs(list, n.pos, offset) && afterSeparator == (n.pos > 0 && list.seps[n.pos - 1] != null)
      invariant n != null && n.isLineSeparator ==> !afterSeparator
      invariant head.lineIndent == old(head.lineIndent)
      decreases if n == null then 0 else |list.toks| - Ahead(n) + 1, n != null && n.isLineSeparator
    {
      NodeInRepr(list, n);
      StepIsNext(list, n);
      if n.isLineSeparator {
        IndentIsTop(list.tokens, list.Breaks(), Ahead(n));
        afterSeparator, offset := true, indents[|indents| - 1];
      } else {
        NodeIs(list, n);
        offset, indents := PlaceToken(list, n, offset, afterSeparator, indents);
        afterSeparator := false;
      }
      n := n.next;
    }
  }

  /** Numbers the lines, which may set close parens apart, and indents them. */
  method PropagatePretty(list: TokenList, head: Node)
    requires Linked(list) && list.IsToken(head) && head.pos == 0
    modifies list`seps, list`repr, list.repr
    ensures Settled(list, head) && Grown(list) && BreaksKept(old(list.Breaks()), list.Breaks())
    ensures list.Breaks() == NumberAll(list.tokens, Numbering(old(list.Breaks()), [], old(head.line))).breaks
    ensures head.lineIndent == old(head.lineIndent)
  {
    ghost var s := Numbering(list.Breaks(), [], head.line);
    NumberAllOk(list.tokens, s);
    NumberLines(list, head);
    RecordedIsOk(list, NumberAll(list.tokens, s));
    LayOut(list, head);
  }

  lemma RecordedIsOk(list: TokenList, s: Numbering)
    requires Recorded(list, s, |list.toks|) && LinesOk(list.tokens, s)
    ensures LinesOk(list.tokens, Numbering(list.Breaks(), LinesOf(list.toks), 0))
  {
    var lines := Numbering(list.Breaks(), LinesOf(list.toks), 0);
    assert lines.lines == s.lines;
    forall i | 0 < i < |s.lines| ensures LineStep(lines, i) && AloneAt(list.tokens, lines, i) {
      assert LineStep(s, i) && AloneAt(list.tokens, s, i);
    }
  }

  /** What holds whenever lines are numbered and laid out. */
  ghost predicate Settled(list: TokenList, head: Node)
    reads list, list.repr, list.toks
  {
    && Linked(list) && list.IsToken(head) && head.pos == 0 && Placed(list, |list.toks|)
    && LinesOk(list.tokens, Numbering(list.Breaks(), LinesOf(list.toks), 0))
  }
}

/**
 The break loop of the pretty printer: it looks for a line that is too long and breaks the lists
 on it, from the outside in. It ends, because each line it works on starts behind the last one.
 */
module PrettyBreaks {
  import opened FormTokens
  import opened PrettyLayout
  import opened PrettyList
  import opened PrettyPrinter

  // ---------------------------------------------------------------------------------------------
  // Looking for lines and lists
  // ---------------------------------------------------------------------------------------------

  lemma TokenCount(list: TokenList)
    requires list.Valid()
    ensures |list.toks| == |list.seps| == |list.tokens|
  {
  }

  /** All tokens from `a` to `b` are on the line of `a`. */
  ghost predicate SameLine(list: TokenList, a: nat, b: nat)
    requires b < |list.toks|
    reads list`toks, list.toks`line
  {
    forall i :: a < i <= b ==> list.toks[i].line == list.toks[a].line
  }

  ghost predicate NoneTooLong(list: TokenList, a: nat, b: nat, lineLength: int)
    requires b <= |list.toks|
    reads list`toks, list.toks`offset
  {
    forall i :: a <= i < b ==> list.toks[i].offset <= lineLength
  }

  /** `bad` starts the line of the first token from `start` on that stands too far out. */
  ghost predicate FirstBadLine(list: TokenList, start: nat, lineLength: int, bad: nat, token: nat)
    reads list`toks, list.toks`line, list.toks`offset
  {
    && start <= bad <= token < |list.toks| && NoneTooLong(list, start, token, lineLength)
    && list.toks[token].offset > lineLength
    && SameLine(list, bad, token) && (bad == start || list.toks[bad - 1].line != list.toks[bad].line)
  }

  method GetFirstBadLine(list: TokenList, start: Node, lineLength: int) returns (bad: Node?, ghost token: nat)
    requires list.Valid() && list.IsToken(start)
    ensures bad == null ==> NoneTooLong(list, start.pos, |list.toks|, lineLength)
    ensures bad != null ==> list.IsToken(bad) && FirstBadLine(list, start.pos, lineLength, bad.pos, token)
  {
    hide PrettyList.TokenList.Valid;
    var lineStart: Node := start;
    var n: Node? := start;
    token := start.pos;
    while n != null
      invariant list.IsToken(lineStart) && start.pos <= lineStart.pos
      invariant lineStart == start || list.toks[lineStart.pos - 1].line != list.toks[lineStart.pos].line
      invariant n == null ==> NoneTooLong(list, start.pos, |list.toks|, lineLength)
      invariant n != null ==>
          InList(list, n) && Ahead(n) < |list.toks| && NoneTooLong(list, start.pos, Ahead(n), lineLength)
      invariant n != null ==>
          start.pos <= Ahead(n)
              && ((n == start && lineStart == start)
                  || (lineStart.pos < Ahead(n) && SameLine(list, lineStart.pos, Ahead(n) - 1)))
      decreases if n == null then 0 else |list.toks| - Ahead(n) + 1, n != null && n.isLineSeparator
    {
      StepIsNext(list, n);
      if !n.isLineSeparator {
        if n.line != lineStart.line { lineStart := n; }
        if n.offset > lineLength { return lineStart, n.pos; }
      }
      n := n.next;
    }
    bad := null;
  }

  /** The first token on another line. */
  method GetNextLine(list: TokenList, start: Node) returns (next: Node?)
    requires list.Valid() && list.IsToken(start)
    ensures next == null ==> SameLine(list, start.pos, |list.toks| - 1)
    ensures next != null ==>
        list.IsToken(next) && next.pos > start.pos && next.line != start.line && SameLine(list, start.pos, next.pos - 1)
  {
    next := start;
    while next != null && (next.isLineSeparator || next.line == start.line)
      invariant next == null ==> SameLine(list, start.pos, |list.toks| - 1)
      invariant next != null ==> InList(list, next) && start.pos <= Ahead(next) < |list.toks|
      invariant next != null && next != start ==> start.pos < Ahead(next) && SameLine(list, start.pos, Ahead(next) - 1)
      decreases if next == null then 0 else |list.toks| - Ahead(next) + 1, next != null && next.isLineSeparator
    {
      StepIsNext(list, next);
      next := next.next;
    }
  }

  /** The tokens from `a` to `b` are on one line with no separator between them. */
  ghost predicate Unbroken(list: TokenList, a: nat, b: nat)
    reads list`toks, list`seps, list.toks`line
  {
    b < |list.toks| == |list.seps| && SameLine(list, a, b) && forall i :: a <= i < b ==> list.seps[i] == null
  }

  /** No list opens from `a` on before `b`, or before the line ends. */
  ghost predicate NoListFrom(list: TokenList, line: nat, a: nat)
    reads list`toks, list`seps, list.toks`line
  {
    |list.toks| == |list.tokens| && forall j :: a <= j < |list.toks| && Unbroken(list, line, j) ==>
        list.tokens[j] != Open
  }

  /** The first open paren from token `from` on that is on the line of `start`. */
  method FindList(list: TokenList, start: Node, from: Node) returns (open: Node?)
    requires list.Valid() && list.IsToken(start) && list.IsToken(from)
    requires from == start || (from.pos == start.pos + 1 && list.seps[start.pos] == null)
    ensures open != null ==>
        list.IsToken(open) && open.tok == Open && from.pos <= open.pos && Unbroken(list, start.pos, open.pos)
    ensures open == null ==> NoListFrom(list, start.pos, from.pos)
  {
    hide PrettyList.TokenList.Valid;
    TokenCount(list);
    var n: Node := from;
    while n.line == start.line
      invariant list.IsToken(n) && from.pos <= n.pos
      invariant forall j :: from.pos <= j < n.pos ==> list.tokens[j] != Open
      invariant forall j :: start.pos <= j < n.pos ==> list.seps[j] == null
      invariant n.pos > start.pos ==> SameLine(list, start.pos, n.pos - 1)
      decreases |list.toks| - n.pos
    {
      NodeIs(list, n);
      if n.tok == Open { return n; }
      StepIsNext(list, n);
      if n.next == null || n.next.isLineSeparator { return null; }
      n := n.next;
    }
    open := null;
  }

  method GetFirstListOnLine(list: TokenList, start: Node) returns (open: Node?)
    requires list.Valid() && list.IsToken(start)
    ensures open != null ==>
        list.IsToken(open) && open.tok == Open && start.pos <= open.pos && Unbroken(list, start.pos, open.pos)
    ensures open == null ==> NoListFrom(list, start.pos, start.pos)
  {
    open := FindList(list, start, start);
  }

  method GetNextListOnLine(list: TokenList, start: Node) returns (open: Node?)
    requires list.Valid() && list.IsToken(start)
    ensures open != null ==>
        list.IsToken(open) && open.tok == Open && start.pos < open.pos && Unbroken(list, start.pos, open.pos)
    ensures open == null ==> NoListFrom(list, start.pos, start.pos + 1)
  {
    StepIsNext(list, start);
    if start.next == null || start.next.isLineSeparator {
      open := null;
    } else {
      open := FindList(list, start, start.next);
    }
  }

  // ---------------------------------------------------------------------------------------------
  // The loop
  // ---------------------------------------------------------------------------------------------

  lemma SettledGives(list: TokenList, head: Node)
    requires Settled(list, head)
    ensures Linked(list) && list.Valid() && list.IsToken(head) && head.pos == 0
            && |list.toks| == |list.seps| == |list.tokens|
  {
  }

  lemma KeptTransitive(a: seq<bool>, b: seq<bool>, c: seq<bool>)
    requires BreaksKept(a, b) && BreaksKept(b, c)
    ensures BreaksKept(a, c)
  {
  }

  /** The token starts a line: it is the first of all or stands behind a separator. */
  ghost predicate StartsLine(breaks: seq<bool>, i: nat) { i == 0 || (i <= |breaks| && breaks[i - 1]) }

  lemma StartsStay(a: seq<bool>, b: seq<bool>, i: nat)
    requires BreaksKept(a, b) && StartsLine(a, i)
    ensures StartsLine(b, i)
  {
  }

  /** A token on another line than the one before it starts a line. */
  lemma OtherLineStarts(list: TokenList, head: Node, i: nat)
    requires Settled(list, head) && 0 < i < |list.toks| && list.toks[i - 1].line != list.toks[i].line
    ensures StartsLine(list.Breaks(), i)
  {
    assert LineStep(Numbering(list.Breaks(), LinesOf(list.toks), 0), i);
  }

  lemma LinesRise(list: TokenList, head: Node, a: nat, b: nat)
    requires Settled(list, head) && a <= b < |list.toks|
    ensures list.toks[a].line <= list.toks[b].line
  {
    if a < b {
      LinesRise(list, head, a, b - 1);
      assert LineStep(Numbering(list.Breaks(), LinesOf(list.toks), 0), b);
    }
  }

  /** The next line to work on, from the last one on; that one is not tried twice. */
  method NextCandidate(list: TokenList, head: Node, search: Node, last: Node?, lineLength: int)
      returns (candidate: Node?)
    requires Settled(list, head) && list.IsToken(search) && StartsLine(list.Breaks(), search.pos)
             && (last == search || (last == null && search == head))
    ensures candidate != null ==>
        list.IsToken(candidate) && StartsLine(list.Breaks(), candidate.pos) && search.pos <= candidate.pos
            && candidate != last
    ensures candidate == null ==> forall j :: search.pos <= j < |list.toks| && list.toks[j].line != search.line ==>
        list.toks[j].offset <= lineLength
  {
    hide Settled, Linked, PrettyList.TokenList.Valid;
    SettledGives(list, head);
    ghost var token;
    candidate, token := GetFirstBadLine(list, search, lineLength);
    if candidate != null && candidate != search { OtherLineStarts(list, head, candidate.pos); }
    if candidate == last {
      candidate := null;
      var next := GetNextLine(list, search);
      if next != null {
        OtherLineStarts(list, head, next.pos);
        candidate, token := GetFirstBadLine(list, next, lineLength);
        if candidate != null && candidate != next { OtherLineStarts(list, head, candidate.pos); }
      }
    }
  }

  /** Breaks the lists of one line, from the outside in, until it is another line that is too long, or none. */
  method BreakLine(list: TokenList, head: Node, line: Node, lineLength: int)
    requires Settled(list, head) && list.IsToken(line)
    modifies list`seps, list`repr, list.repr
    ensures Settled(list, head) && Grown(list) && BreaksKept(old(list.Breaks()), list.Breaks())
            && head.lineIndent == old(head.lineIndent)
  {
    hide Settled, Linked, PrettyList.TokenList.Valid, ListBroken, NumberAll, NoListFrom, Unbroken, FirstBadLine,
        NoneTooLong, BreaksKept;
    SettledGives(list, head);
    KeptTransitive(list.Breaks(), list.Breaks(), list.Breaks());
    var form := GetFirstListOnLine(list, line);
    while form != null
      invariant Settled(list, head) && Grown(list) && BreaksKept(old(list.Breaks()), list.Breaks())
                && head.lineIndent == old(head.lineIndent)
      invariant form != null ==> list.IsToken(form) && form.tok == Open
      decreases if form == null then 0 else |list.toks| - form.pos
    {
      ghost var before := list.Breaks();
      SettledGives(list, head);
      BreakList(list, form);
      KeptTransitive(old(list.Breaks()), before, list.Breaks());
      before := list.Breaks();
      PropagatePretty(list, head);
      KeptTransitive(old(list.Breaks()), before, list.Breaks());
      SettledGives(list, head);
      var bad, _ := GetFirstBadLine(list, line, lineLength);
      if bad != line { return; }
      form := GetNextListOnLine(list, form);
    }
  }

  /** Only the lines up to the last one worked on may still be too long. */
  ghost predicate FitsFrom(list: TokenList, p: nat, lineLength: int)
    reads list`toks, list.toks`line, list.toks`offset
  {
    p < |list.toks| && forall j :: p <= j < |list.toks| && list.toks[j].line != list.toks[p].line ==>
        list.toks[j].offset <= lineLength
  }

  method InsertBreaksAsNeeded(list: TokenList, head: Node, lineLength: int) returns (ghost last: nat)
    requires Settled(list, head)
    modifies list`seps, list`repr, list.repr
    ensures Settled(list, head) && Grown(list) && BreaksKept(old(list.Breaks()), list.Breaks())
            && head.lineIndent == old(head.lineIndent)
    ensures FitsFrom(list, last, lineLength)
  {
    hide Settled, Linked, PrettyList.TokenList.Valid, NumberAll, BreaksKept;
    KeptTransitive(list.Breaks(), list.Breaks(), list.Breaks());
    SettledGives(list, head);
    var lastComplete: Node? := null;
    var search: Node := head;
    while true
      invariant Settled(list, head) && Grown(list) && BreaksKept(old(list.Breaks()), list.Breaks())
                && head.lineIndent == old(head.lineIndent)
      invariant list.IsToken(search) && StartsLine(list.Breaks(), search.pos)
                && (lastComplete == search || (lastComplete == null && search == head))
      decreases if lastComplete == null then |list.toks| + 1 else |list.toks| - lastComplete.pos
    {
      SettledGives(list, head);
      ghost var before := list.Breaks();
      PropagatePretty(list, head);
      KeptTransitive(old(list.Breaks()), before, list.Breaks());
      StartsStay(before, list.Breaks(), search.pos);
      var candidate := NextCandidate(list, head, search, lastComplete, lineLength);
      if candidate == null { return search.pos; }
      before := list.Breaks();
      BreakLine(list, head, candidate, lineLength);
      KeptTransitive(old(list.Breaks()), before, list.Breaks());
      StartsStay(before, list.Breaks(), candidate.pos);
      lastComplete := candidate;
      search := candidate;
    }
  }
}

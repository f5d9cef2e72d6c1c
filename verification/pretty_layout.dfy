/**
 What the pretty printer works out, over a token list and the places where it is broken: where
 breaks go, the number of each line, and how far each token stands from the margin.
 */
module PrettyLayout {
  import opened FormTokens
  import opened Parens

  /** The first token from `i` on that is no quote mark, or the last token. */
  function AfterQuotes(ts: seq<FormToken>, i: nat): (k: nat)
    requires i < |ts|
    ensures i <= k < |ts| && (ts[k] != Quote || k == |ts| - 1)
    decreases |ts| - i
  {
    if ts[i] == Quote && i + 1 < |ts| then AfterQuotes(ts, i + 1) else i
  }

  /** The first of the quote marks right before token `i`, or `i`. */
  function BeforeQuotes(ts: seq<FormToken>, i: nat): (k: nat)
    requires i < |ts|
    ensures k <= i && (k > 0 ==> ts[k - 1] != Quote)
  {
    if i > 0 && ts[i - 1] == Quote then BeforeQuotes(ts, i - 1) else i
  }

  /** Where the break goes that is asked for behind token `i`; none behind the last token. */
  function BrokenAfter(ts: seq<FormToken>, breaks: seq<bool>, i: nat): (b: seq<bool>)
    requires i < |ts| == |breaks|
    ensures |b| == |breaks|
  {
    var k := AfterQuotes(ts, i);
    if k + 1 < |ts| then breaks[k := true] else breaks
  }

  function BrokenBefore(ts: seq<FormToken>, breaks: seq<bool>, i: nat): (b: seq<bool>)
    requires i < |ts| == |breaks|
    ensures |b| == |breaks|
  {
    var k := BeforeQuotes(ts, i);
    if k > 0 then breaks[k - 1 := true] else breaks
  }

  /** All breaks of `a` are in `b`. */
  ghost predicate BreaksKept(a: seq<bool>, b: seq<bool>) {
    |a| == |b| && forall i :: 0 <= i < |a| && a[i] ==> b[i]
  }

  // ---------------------------------------------------------------------------------------------
  // Breaking a list
  // ---------------------------------------------------------------------------------------------

  /** The last token of the entry that starts at token `n`. */
  function EntryEnd(ts: seq<FormToken>, n: nat): (m: nat)
    requires n < |ts|
    ensures n <= m
  {
    if ts[n] == Open then CloseOf(ts, n, n + 1) else n
  }

  /** Breaks behind every entry from token `n` up to the close paren `r`. */
  function EntriesBroken(ts: seq<FormToken>, breaks: seq<bool>, n: nat, r: nat): (b: seq<bool>)
    requires r < |ts| == |breaks|
    ensures |b| == |breaks|
    decreases r - n
  {
    if n >= r then breaks
    else if ts[n] == Space then EntriesBroken(ts, breaks, n + 1, r)
    else if EntryEnd(ts, n) >= r then breaks
    else EntriesBroken(ts, BrokenAfter(ts, breaks, EntryEnd(ts, n)), EntryEnd(ts, n) + 1, r)
  }

  lemma EntriesStep(ts: seq<FormToken>, breaks: seq<bool>, n: nat, r: nat)
    requires n < r < |ts| == |breaks| && EntryEnd(ts, n) < r
    ensures EntriesBroken(ts, breaks, n, r)
            == EntriesBroken(ts, if ts[n] == Space then breaks
                else BrokenAfter(ts, breaks, EntryEnd(ts, n)), EntryEnd(ts, n) + 1, r)
  {
  }

  /** The breaks after the list that opens at `l` was broken. */
  function ListBroken(ts: seq<FormToken>, breaks: seq<bool>, l: nat): (b: seq<bool>)
    requires l < |ts| == |breaks|
    ensures |b| == |breaks|
  {
    if CloseOf(ts, l, l + 1) < |ts| then EntriesBroken(ts, breaks, l + 1, CloseOf(ts, l, l + 1)) else breaks
  }

  /** Breaking a list adds breaks, and only between its parens. */
  lemma {:induction false} EntriesBrokenInside(ts: seq<FormToken>, breaks: seq<bool>, n: nat, r: nat)
    requires n <= r < |ts| == |breaks| && QuotesOk(ts) && ts[r] == Close
    ensures var b := EntriesBroken(ts, breaks, n, r);
            BreaksKept(breaks, b) && forall i :: 0 <= i < |b| && b[i] && !breaks[i] ==> n <= i < r
    decreases r - n
  {
    if n < r {
      if ts[n] == Space {
        EntriesBrokenInside(ts, breaks, n + 1, r);
      } else if EntryEnd(ts, n) < r {
        QuotesEndBefore(ts, EntryEnd(ts, n), r);
        EntriesBrokenInside(ts, BrokenAfter(ts, breaks, EntryEnd(ts, n)), EntryEnd(ts, n) + 1, r);
      }
    }
  }

  lemma {:induction false} QuotesEndBefore(ts: seq<FormToken>, i: nat, r: nat)
    requires i < r < |ts| && QuotesOk(ts) && ts[r] == Close
    ensures AfterQuotes(ts, i) < r
    decreases r - i
  {
    if ts[i] == Quote { QuotesEndBefore(ts, i + 1, r); }
  }

  /** Every entry of a broken list has a break behind it, so that no two share a line. */
  lemma {:induction false} EntriesAreBroken(ts: seq<FormToken>, breaks: seq<bool>, n: nat, r: nat, e: nat)
    requires n <= e < r < |ts| == |breaks| && QuotesOk(ts) && ts[r] == Close && ts[e] != Space && EntryEnd(ts, e) < r
             && StartsEntry(ts, n, e)
    ensures EntriesBroken(ts, breaks, n, r)[AfterQuotes(ts, EntryEnd(ts, e))]
    decreases e - n
  {
    QuotesEndBefore(ts, EntryEnd(ts, e), r);
    if n == e {
      var b := BrokenAfter(ts, breaks, EntryEnd(ts, n));
      EntriesBrokenInside(ts, b, EntryEnd(ts, n) + 1, r);
      assert b[AfterQuotes(ts, EntryEnd(ts, e))];
    } else if ts[n] == Space {
      EntriesAreBroken(ts, breaks, n + 1, r, e);
    } else {
      EntriesAreBroken(ts, BrokenAfter(ts, breaks, EntryEnd(ts, n)), EntryEnd(ts, n) + 1, r, e);
    }
  }

  /** Going from entry to entry from `n` on one comes to `e`. */
  predicate StartsEntry(ts: seq<FormToken>, n: nat, e: nat)
    requires e < |ts|
    decreases e - n
  {
    n == e || (n < e
               && if ts[n] == Space then StartsEntry(ts, n + 1, e)
                     else EntryEnd(ts, n) < e && StartsEntry(ts, EntryEnd(ts, n) + 1, e))
  }

  // ---------------------------------------------------------------------------------------------
  // Line numbers
  // ---------------------------------------------------------------------------------------------

  /** Breaks before and behind token `i`, as far as there are neighbours. */
  function AloneBroken(breaks: seq<bool>, i: nat): (b: seq<bool>)
    requires 0 < i < |breaks|
    ensures |b| == |breaks|
  {
    if i + 1 < |breaks| then breaks[i - 1 := true][i := true] else breaks[i - 1 := true]
  }

  /** The breaks so far, the lines of the tokens passed, and the line counter. */
  datatype Numbering = Numbering(breaks: seq<bool>, lines: seq<int>, line: int)

  /**
   Passes one token. A close paren on another line than its open paren is put on a line of its
   own, but counted as on the line before.
   */
  function NumberNext(ts: seq<FormToken>, s: Numbering): (r: Numbering)
    requires |s.lines| < |ts| == |s.breaks|
    ensures |r.breaks| == |ts| && |r.lines| == |s.lines| + 1 && s.lines == r.lines[..|s.lines|]
  {
    var i := |s.lines|;
    var here := if i > 0 && s.breaks[i - 1] then s.line + 1 else s.line;
    if i > 0 && ts[i] == Close && here != s.lines[OpenOf(ts, i, i - 1)] then
      Numbering(AloneBroken(s.breaks, i), s.lines + [here], if s.breaks[i - 1] then here else here + 1)
    else Numbering(s.breaks, s.lines + [here], here)
  }

  function NumberAll(ts: seq<FormToken>, s: Numbering): (r: Numbering)
    requires |s.lines| <= |ts| == |s.breaks|
    ensures |r.breaks| == |r.lines| == |ts|
    decreases |ts| - |s.lines|
  {
    if |s.lines| == |ts| then s else NumberAll(ts, NumberNext(ts, s))
  }

  /** Lines never go down and go up only across a break. */
  ghost predicate LineStep(s: Numbering, i: nat)
    requires 0 < i < |s.lines| <= |s.breaks|
  {
    s.lines[i - 1] <= s.lines[i] && (s.lines[i - 1] != s.lines[i] ==> s.breaks[i - 1])
  }

  /** A close paren on another line than its open paren stands on a line of its own. */
  ghost predicate AloneAt(ts: seq<FormToken>, s: Numbering, i: nat)
    requires 0 < i < |s.lines| <= |s.breaks| == |ts|
  {
    ts[i] == Close && s.lines[OpenOf(ts, i, i - 1)] != s.lines[i] ==> s.breaks[i - 1] && (i + 1 < |ts| ==> s.breaks[i])
  }

  ghost predicate LinesOk(ts: seq<FormToken>, s: Numbering) {
    |s.lines| <= |s.breaks| == |ts| && forall i :: 0 < i < |s.lines| ==> LineStep(s, i) && AloneAt(ts, s, i)
  }

  /** The counter fits the last token passed, if it is not the last of all. */
  ghost predicate Counting(s: Numbering) {
    0 < |s.lines| < |s.breaks| ==>
        s.lines[|s.lines| - 1] <= s.line && (!s.breaks[|s.lines| - 1] ==> s.lines[|s.lines| - 1] == s.line)
  }

  lemma NumberNextOk(ts: seq<FormToken>, s: Numbering)
    requires LinesOk(ts, s) && Counting(s) && |s.lines| < |ts|
    ensures var r := NumberNext(ts, s); LinesOk(ts, r) && Counting(r) && BreaksKept(s.breaks, r.breaks)
  {
    var r := NumberNext(ts, s);
    forall i | 0 < i < |r.lines| ensures LineStep(r, i) && AloneAt(ts, r, i) {
      if i < |s.lines| { assert LineStep(s, i) && AloneAt(ts, s, i); }
    }
  }

  lemma {:induction false} NumberAllOk(ts: seq<FormToken>, s: Numbering)
    requires LinesOk(ts, s) && Counting(s)
    ensures var r := NumberAll(ts, s); LinesOk(ts, r) && BreaksKept(s.breaks, r.breaks)
    decreases |ts| - |s.lines|
  {
    if |s.lines| < |ts| {
      NumberNextOk(ts, s);
      NumberAllOk(ts, NumberNext(ts, s));
    }
  }

  // ---------------------------------------------------------------------------------------------
  // Indentation
  // ---------------------------------------------------------------------------------------------

  function Width(tok: FormToken): nat { if tok == Space then 1 else |Spelled(tok)| }

  /** How far from the margin token `i` stands: behind the one before it, or at the indentation of its line. */
  function OffsetAt(ts: seq<FormToken>, breaks: seq<bool>, i: nat): (x: nat)
    requires i < |ts| == |breaks|
    decreases i, 2
  {
    if i == 0 then 0 else if breaks[i - 1] then Indent(ts, breaks, i)
        else OffsetAt(ts, breaks, i - 1) + Width(ts[i - 1])
  }

  /** A line is indented to the innermost list open at its start. */
  function Indent(ts: seq<FormToken>, breaks: seq<bool>, i: nat): (x: nat)
    requires i < |ts| == |breaks|
    decreases i, 1
  {
    var st := StackOf(ts, i);
    if st == [] then 0
    else
      StackBelow(ts, i, |st| - 1);
      OpenIndent(ts, breaks, st[|st| - 1])
  }

  /** To the open paren, or two further in when that starts its own line. */
  function OpenIndent(ts: seq<FormToken>, breaks: seq<bool>, e: nat): (x: nat)
    requires e < |ts| == |breaks|
    decreases e, 3
  {
    OffsetAt(ts, breaks, e) + if e == 0 || breaks[e - 1] then 2 else 0
  }

  /** The indentations that the source keeps on a stack: of the whole, and of each list open before token `i`. */
  function IndentStack(ts: seq<FormToken>, breaks: seq<bool>, i: nat): (st: seq<int>)
    requires i <= |ts| == |breaks|
    ensures st != [] && st[0] == 0
  {
    if i == 0 then [0]
    else
      var st := IndentStack(ts, breaks, i - 1);
      if ts[i - 1] == Open then st + [OpenIndent(ts, breaks, i - 1)]
      else if ts[i - 1] == Close && |st| > 1 then st[..|st| - 1]
      else st
  }

  lemma {:induction false} IndentStackIs(ts: seq<FormToken>, breaks: seq<bool>, i: nat)
    requires i <= |ts| == |breaks|
    ensures |IndentStack(ts, breaks, i)| == |StackOf(ts, i)| + 1
    ensures forall k :: 0 <= k < |StackOf(ts, i)| ==>
        StackOf(ts, i)[k] < i && IndentStack(ts, breaks, i)[k + 1] == OpenIndent(ts, breaks, StackOf(ts, i)[k])
  {
    if i > 0 { IndentStackIs(ts, breaks, i - 1); }
  }

  /** Its top is the indentation of a line that starts here. */
  lemma IndentIsTop(ts: seq<FormToken>, breaks: seq<bool>, i: nat)
    requires i < |ts| == |breaks|
    ensures var st := IndentStack(ts, breaks, i); st[|st| - 1] == Indent(ts, breaks, i)
  {
    IndentStackIs(ts, breaks, i);
    assert forall k :: 0 <= k < |StackOf(ts, i)| ==>
        IndentStack(ts, breaks, i)[k + 1] == OpenIndent(ts, breaks, StackOf(ts, i)[k]);
  }

  // ---------------------------------------------------------------------------------------------
  // The text
  // ---------------------------------------------------------------------------------------------

  function Spaces(n: nat): (s: string)
    ensures |s| == n && Blank(s)
  {
    if n == 0 then "" else Spaces(n - 1) + " "
  }

  /** What is written in front of token `i`; spaces at the start of a line are not. */
  function FillAt(ts: seq<FormToken>, breaks: seq<bool>, i: nat): string
    requires i < |ts| == |breaks|
  {
    if i > 0 && breaks[i - 1] then "\n" + Spaces(OffsetAt(ts, breaks, i)) else if ts[i] == Space then " " else ""
  }

  function Fills(ts: seq<FormToken>, breaks: seq<bool>): (fills: seq<string>)
    requires |breaks| == |ts|
    ensures |fills| == |ts| && forall i :: 0 <= i < |ts| ==> fills[i] == FillAt(ts, breaks, i)
  {
    seq(|ts|, i requires 0 <= i < |ts| => FillAt(ts, breaks, i))
  }

  /** Breaks that do not follow quote marks make a layout. */
  lemma FillsAreOk(ts: seq<FormToken>, breaks: seq<bool>)
    requires |breaks| == |ts| && QuotesOk(ts) && forall i :: 0 <= i < |ts| && ts[i] == Quote ==> !breaks[i]
    ensures FillsOk(ts, Fills(ts, breaks))
  {
    hide OffsetAt;
    var fills := Fills(ts, breaks);
    forall i | 0 < i < |ts| && ts[i - 1] == Quote ensures fills[i] == "" { assert StartsForm(ts[i - 1 + 1]); }
  }
}

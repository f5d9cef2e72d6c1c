/**
 Open parentheses over a token list: the stack of those still open at each token, matching, and
 that the tokens of every object are balanced.
 */
module Parens {
  import opened GoosObjects
  import opened FormTokens
  import opened Wrappers

  /** The open parens before token `i` that are not closed before it, outermost first. */
  function StackOf(ts: seq<FormToken>, i: nat): seq<nat>
    requires i <= |ts|
  {
    if i == 0 then []
    else
      var st := StackOf(ts, i - 1);
      if ts[i - 1] == Open then st + [i - 1]
      else if ts[i - 1] == Close then if st == [] then [] else st[..|st| - 1]
      else st
  }

  /** How many parens are open before token `i`. */
  function Depth(ts: seq<FormToken>, i: nat): int
    requires i <= |ts|
  {
    if i == 0 then 0 else Depth(ts, i - 1) + if ts[i - 1] == Open then 1 else if ts[i - 1] == Close then -1 else 0
  }

  /** `r` closes what `l` opens: the first token behind which nothing of it is open. */
  ghost predicate Matches(ts: seq<FormToken>, l: nat, r: nat) {
    && l < r < |ts| && ts[l] == Open && ts[r] == Close && Depth(ts, r + 1) == Depth(ts, l)
    && forall i :: l < i <= r ==> Depth(ts, i) > Depth(ts, l)
  }

  /** The close paren for the open paren `l`, from `j` on. */
  function CloseOf(ts: seq<FormToken>, l: nat, j: nat): (r: nat)
    requires l < j <= |ts|
    ensures j <= r <= |ts|
    decreases |ts| - j
  {
    if j == |ts| || Depth(ts, j + 1) <= Depth(ts, l) then j else CloseOf(ts, l, j + 1)
  }

  lemma {:induction false} CloseOfIs(ts: seq<FormToken>, l: nat, j: nat, r: nat)
    requires Matches(ts, l, r) && l < j <= r
    ensures CloseOf(ts, l, j) == r
    decreases r - j
  {
    if j < r { CloseOfIs(ts, l, j + 1, r); }
  }

  /** The open paren for the close paren `r`, from `j` down. */
  function OpenOf(ts: seq<FormToken>, r: nat, j: nat): (l: nat)
    requires j < r < |ts|
    ensures l <= j
  {
    if j == 0 || Depth(ts, j) < Depth(ts, r) then j else OpenOf(ts, r, j - 1)
  }

  lemma {:induction false} OpenOfIs(ts: seq<FormToken>, l: nat, r: nat, j: nat)
    requires Matches(ts, l, r) && l <= j < r
    ensures OpenOf(ts, r, j) == l
    decreases j - l
  {
    assert Depth(ts, r + 1) == Depth(ts, r) - 1;
    if l < j { OpenOfIs(ts, l, r, j - 1); }
  }

  /** Inside a list, not inside a list in it, there are no close parens, and lists in it close before it does. */
  lemma InsideIsClosed(ts: seq<FormToken>, l: nat, r: nat, n: nat)
    requires Matches(ts, l, r) && l < n < r && Depth(ts, n) == Depth(ts, l) + 1
    ensures ts[n] != Close
    ensures forall m: nat :: Matches(ts, n, m) ==> m < r
  {
    assert Depth(ts, n + 1) > Depth(ts, l);
    assert Depth(ts, r + 1) == Depth(ts, r) - 1;
  }

  /** No close paren before `i` finds no open one. */
  ghost predicate ClosesSound(ts: seq<FormToken>, i: nat)
    requires i <= |ts|
  {
    forall j :: 0 <= j < i && ts[j] == Close ==> StackOf(ts, j) != []
  }

  lemma {:induction false} DepthIsStack(ts: seq<FormToken>, i: nat)
    requires i <= |ts| && ClosesSound(ts, i)
    ensures Depth(ts, i) == |StackOf(ts, i)|
  {
    if i > 0 { DepthIsStack(ts, i - 1); }
  }

  lemma DepthBefore(ts: seq<FormToken>, i: nat, n: nat)
    requires i <= n <= |ts| && ClosesSound(ts, n)
    ensures Depth(ts, i) == |StackOf(ts, i)|
  {
    DepthIsStack(ts, i);
  }

  /** What is below an open paren on the stack is the stack it was pushed on. */
  lemma {:induction false} StackBelow(ts: seq<FormToken>, i: nat, k: nat)
    requires i <= |ts| && k < |StackOf(ts, i)|
    ensures var p := StackOf(ts, i)[k]; p < i && ts[p] == Open && |StackOf(ts, p)| == k
    ensures forall m :: StackOf(ts, i)[k] < m <= i ==> |StackOf(ts, m)| > k
  {
    if ts[i - 1] != Open || k < |StackOf(ts, i)| - 1 { StackBelow(ts, i - 1, k); }
  }

  /** A close paren matches the innermost open one. */
  lemma CloseMatches(ts: seq<FormToken>, r: nat)
    requires r < |ts| && ts[r] == Close && ClosesSound(ts, r + 1)
    ensures var st := StackOf(ts, r); st != [] && Matches(ts, st[|st| - 1], r)
  {
    var st := StackOf(ts, r);
    assert st != [] && Depth(ts, r + 1) == Depth(ts, r) - 1;
    hide StackOf, ClosesSound, Depth;
    var p := st[|st| - 1];
    StackBelow(ts, r, |st| - 1);
    DepthBefore(ts, p, r + 1);
    DepthBefore(ts, r, r + 1);
    forall i | p < i <= r ensures Depth(ts, i) > Depth(ts, p) {
      DepthBefore(ts, i, r + 1);
    }
  }

  // ---------------------------------------------------------------------------------------------
  // The tokens of an object
  // ---------------------------------------------------------------------------------------------

  /** What the pretty printer takes: everything but arrays. */
  predicate NoArrays(o: Object) {
    match o
    case Arr(_) => false
    case Pair(car, cdr) => NoArrays(car) && NoArrays(cdr)
    case _ => true
  }

  /** The stack after reading on from `base`; nothing if a close paren finds no open one. */
  function Run(part: seq<FormToken>, base: nat, st: seq<nat>): Option<seq<nat>> {
    if part == [] then Some(st)
    else if part[0] == Open then Run(part[1..], base + 1, st + [base])
    else if part[0] != Close then Run(part[1..], base + 1, st)
    else if st == [] then None
    else Run(part[1..], base + 1, st[..|st| - 1])
  }

  lemma {:induction false} RunAppend(x: seq<FormToken>, y: seq<FormToken>, base: nat, st: seq<nat>)
    ensures Run(x + y, base, st) == if Run(x, base, st).None? then None else Run(y, base + |x|, Run(x, base, st).value)
  {
    if x == [] {
      assert x + y == y;
    } else {
      assert (x + y)[1..] == x[1..] + y;
      if x[0] == Open {
        RunAppend(x[1..], y, base + 1, st + [base]);
      } else if x[0] != Close {
        RunAppend(x[1..], y, base + 1, st);
      } else if st != [] {
        RunAppend(x[1..], y, base + 1, st[..|st| - 1]);
      }
    }
  }

  lemma RunOne(tok: FormToken, base: nat, st: seq<nat>)
    ensures Run([tok], base, st) == if tok == Open then Some(st + [base])
                                    else if tok != Close then Some(st)
                                    else if st == [] then None else Some(st[..|st| - 1])
  {
    assert [tok][1..] == [];
  }

  lemma RunThree(tok: FormToken, x: seq<FormToken>, y: seq<FormToken>, base: nat, st: seq<nat>)
    requires tok != Close
             && Run(x, base + 1, if tok == Open then st + [base] else st)
                   == Some(if tok == Open then st + [base] else st)
    ensures Run([tok] + (x + y), base, st) == Run(y, base + 1 + |x|, if tok == Open then st + [base] else st)
  {
    RunAppend([tok], x + y, base, st);
    RunOne(tok, base, st);
    RunAppend(x, y, base + 1, if tok == Open then st + [base] else st);
  }

  /** The tokens of an object close what they open and no more. */
  lemma {:induction false} RunForm(o: Object, base: nat, st: seq<nat>)
    requires NoArrays(o)
    ensures Run(Toks(o, true), base, st) == Some(st)
    decreases o, 0
  {
    if o.Pair? && QuoteForm(o) {
      RunForm(o.cdr.car, base + 1, st);
      RunAppend([Quote], Toks(o.cdr.car, true), base, st);
      RunOne(Quote, base, st);
    } else if o.Pair? {
      RunForm(o.car, base + 1, st + [base]);
      RunThree(Open, Toks(o.car, true), RestToks(o.cdr, true), base, st);
      RunRest(o.cdr, base + 1 + |Toks(o.car, true)|, st + [base]);
      assert (st + [base])[..|st|] == st;
    } else {
      RunLeaf(o, base, st);
    }
  }

  lemma RunLeaf(o: Object, base: nat, st: seq<nat>)
    requires NoArrays(o) && !o.Pair?
    ensures Run(Toks(o, true), base, st) == Some(st)
  {
    var tok := Toks(o, true)[0];
    assert Toks(o, true) == [tok];
    RunOne(tok, base, st);
  }

  lemma {:induction false} RunRest(rest: Object, base: nat, st: seq<nat>)
    requires NoArrays(rest) && st != []
    ensures Run(RestToks(rest, true), base, st) == Some(st[..|st| - 1])
    decreases rest, 1
  {
    if rest.Nil? {
      RunOne(Close, base, st);
    } else if rest.Pair? {
      RunForm(rest.car, base + 1, st);
      RunThree(Space, Toks(rest.car, true), RestToks(rest.cdr, true), base, st);
      RunRest(rest.cdr, base + 1 + |Toks(rest.car, true)|, st);
    } else {
      RunLeaf(rest, base + 3, st);
      RunDotted(Toks(rest, true), base, st);
    }
  }

  lemma RunDotted(x: seq<FormToken>, base: nat, st: seq<nat>)
    requires Run(x, base + 3, st) == Some(st) && st != []
    ensures Run([Space] + ([Dot] + ([Space] + (x + [Close]))), base, st) == Some(st[..|st| - 1])
  {
    RunOne(Dot, base + 1, st);
    RunThree(Space, [Dot], [Space] + (x + [Close]), base, st);
    RunThree(Space, x, [Close], base + 2, st);
    RunOne(Close, base + 3 + |x|, st);
  }

  lemma {:induction false} RunIsStack(ts: seq<FormToken>, i: nat)
    requires i <= |ts| && Run(ts, 0, []).Some?
    ensures Run(ts[..i], 0, []) == Some(StackOf(ts, i))
    ensures i < |ts| && ts[i] == Close ==> StackOf(ts, i) != []
  {
    if i > 0 {
      RunIsStack(ts, i - 1);
      assert ts[..i] == ts[..i - 1] + [ts[i - 1]];
      RunAppend(ts[..i - 1], [ts[i - 1]], 0, []);
      RunOne(ts[i - 1], i - 1, StackOf(ts, i - 1));
    }
    if i < |ts| {
      assert ts == ts[..i] + ts[i..];
      RunAppend(ts[..i], ts[i..], 0, []);
    }
  }

  // ---------------------------------------------------------------------------------------------
  // Quote marks
  // ---------------------------------------------------------------------------------------------

  predicate StartsForm(tok: FormToken) { tok != Close && tok != Space && tok != Dot }

  /** Every quote mark stands before the start of a form. */
  ghost predicate QuotesOk(ts: seq<FormToken>) {
    forall i :: 0 <= i < |ts| && ts[i] == Quote ==> i + 1 < |ts| && StartsForm(ts[i + 1])
  }

  lemma QuotesAppend(x: seq<FormToken>, y: seq<FormToken>)
    requires QuotesOk(y)
    requires QuotesOk(x) || (x == [Quote] && y != [] && StartsForm(y[0]))
    ensures QuotesOk(x + y)
  {
  }

  lemma {:induction false} FormQuotesOk(o: Object)
    requires NoArrays(o)
    ensures QuotesOk(Toks(o, true)) && StartsForm(Toks(o, true)[0])
    decreases o, 0
  {
    if o.Pair? && QuoteForm(o) {
      FormQuotesOk(o.cdr.car);
      QuotesAppend([Quote], Toks(o.cdr.car, true));
    } else if o.Pair? {
      FormQuotesOk(o.car);
      RestQuotesOk(o.cdr);
      QuotesAppend(Toks(o.car, true), RestToks(o.cdr, true));
      QuotesAppend([Open], Toks(o.car, true) + RestToks(o.cdr, true));
    }
  }

  lemma {:induction false} RestQuotesOk(rest: Object)
    requires NoArrays(rest)
    ensures QuotesOk(RestToks(rest, true))
    decreases rest, 1
  {
    if rest.Pair? {
      FormQuotesOk(rest.car);
      RestQuotesOk(rest.cdr);
      QuotesAppend(Toks(rest.car, true), RestToks(rest.cdr, true));
      QuotesAppend([Space], Toks(rest.car, true) + RestToks(rest.cdr, true));
    } else if !rest.Nil? {
      FormQuotesOk(rest);
      QuotesAppend(Toks(rest, true), [Close]);
      QuotesAppend([Space], Toks(rest, true) + [Close]);
      QuotesAppend([Dot], [Space] + (Toks(rest, true) + [Close]));
      QuotesAppend([Space], [Dot] + ([Space] + (Toks(rest, true) + [Close])));
    }
  }

  /** What the pretty printer's loops rest on. */
  ghost predicate WellFormed(ts: seq<FormToken>) {
    ts != [] && StartsForm(ts[0]) && QuotesOk(ts) && StackOf(ts, |ts|) == [] && ClosesSound(ts, |ts|)
  }

  lemma ToksWellFormed(o: Object)
    requires NoArrays(o)
    ensures WellFormed(Toks(o, true))
  {
    var ts := Toks(o, true);
    FormQuotesOk(o);
    RunForm(o, 0, []);
    forall j | 0 <= j < |ts| && ts[j] == Close ensures StackOf(ts, j) != [] { RunIsStack(ts, j); }
    RunIsStack(ts, |ts|);
    assert ts[..|ts|] == ts;
  }
}

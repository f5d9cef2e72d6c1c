/**
 Objects as token lists: `add_to_token_list` of `PrettyPrinter.cpp`, and what texts such a list
 can be laid out as. Plain printing is one layout; the pretty printer makes others.
 */
module FormTokens {
  import opened GoosObjects

  /** `ArrayOpen` is for plain printing only, since the pretty printer refuses arrays. */
  datatype FormToken = Space | Text(str: string) | Open | ArrayOpen | Dot | Close | Empty | Quote

  /** A space is spelled by the blanks in front of it. */
  function Spelled(tok: FormToken): string {
    match tok
    case Space => ""
    case Text(str) => str
    case Open => "("
    case ArrayOpen => "#("
    case Dot => "."
    case Close => ")"
    case Empty => "()"
    case Quote => "'"
  }

  predicate QuoteForm(o: Object) {
    o.Pair? && o.car == Sym("quote") && o.cdr.Pair? && o.cdr.cdr.Nil?
  }

  /** With `sugar`, `(quote x)` becomes a quote mark before `x`. */
  function Toks(o: Object, sugar: bool): (ts: seq<FormToken>)
    ensures ts != []
    decreases o, 0
  {
    match o
    case Nil => [Empty]
    case Pair(car, cdr) =>
      if sugar
          && QuoteForm(o) then [Quote] + Toks(cdr.car, sugar) else [Open] + (Toks(car, sugar) + RestToks(cdr, sugar))
    case Arr(elems) => [ArrayOpen] + (ElemToks(elems, sugar) + [Close])
    case _ => [Text(Print(o))]
  }

  function RestToks(rest: Object, sugar: bool): (ts: seq<FormToken>)
    ensures ts != [] && (ts[0] == Close || ts[0] == Space)
    decreases rest, 1
  {
    match rest
    case Nil => [Close]
    case Pair(car, cdr) => [Space] + (Toks(car, sugar) + RestToks(cdr, sugar))
    case _ => [Space] + ([Dot] + ([Space] + (Toks(rest, sugar) + [Close])))
  }

  function ElemToks(elems: seq<Object>, sugar: bool): seq<FormToken>
    decreases elems, 0
  {
    if elems == [] then []
    else if |elems| == 1 then Toks(elems[0], sugar)
    else Toks(elems[0], sugar) + ([Space] + ElemToks(elems[1..], sugar))
  }

  // ---------------------------------------------------------------------------------------------
  // Layouts
  // ---------------------------------------------------------------------------------------------

  predicate Blank(s: string) { forall i :: 0 <= i < |s| ==> s[i] == ' ' || s[i] == '\n' }

  /** The tokens, each with its blanks in front. */
  function Render(ts: seq<FormToken>, fills: seq<string>): string
    requires |fills| == |ts|
  {
    if ts == [] then "" else fills[0] + Spelled(ts[0]) + Render(ts[1..], fills[1..])
  }

  /** Blanks stand for every space, may stand elsewhere, and never follow a quote mark. */
  ghost predicate FillsOk(ts: seq<FormToken>, fills: seq<string>) {
    && |fills| == |ts|
    && (forall i :: 0 <= i < |ts| ==> Blank(fills[i]) && (ts[i] == Space ==> fills[i] != ""))
    && forall i :: 0 < i < |ts| && ts[i - 1] == Quote ==> fills[i] == ""
  }

  lemma {:induction false} RenderAppend(a: seq<FormToken>, b: seq<FormToken>, fills: seq<string>)
    requires |fills| == |a| + |b|
    ensures Render(a + b, fills) == Render(a, fills[..|a|]) + Render(b, fills[|a|..])
  {
    if a == [] {
      assert a + b == b && fills[0..] == fills;
    } else {
      assert (a + b)[1..] == a[1..] + b;
      assert fills[1..][..|a| - 1] == fills[..|a|][1..] && fills[1..][|a| - 1..] == fills[|a|..];
      RenderAppend(a[1..], b, fills[1..]);
    }
  }

  /** Both halves of a layout are layouts. */
  lemma FillsSplit(a: seq<FormToken>, b: seq<FormToken>, fills: seq<string>)
    requires FillsOk(a + b, fills)
    ensures FillsOk(a, fills[..|a|]) && FillsOk(b, fills[|a|..])
  {
    forall i | 0 <= i < |a|
      ensures Blank(fills[..|a|][i]) && (a[i] == Space ==> fills[..|a|][i] != "")
              && (0 < i && a[i - 1] == Quote ==> fills[..|a|][i] == "")
    {
      assert (a + b)[i] == a[i] && (0 < i ==> (a + b)[i - 1] == a[i - 1]);
    }
    forall i | 0 <= i < |b|
      ensures Blank(fills[|a|..][i]) && (b[i] == Space ==> fills[|a|..][i] != "")
              && (0 < i && b[i - 1] == Quote ==> fills[|a|..][i] == "")
    {
      assert (a + b)[|a| + i] == b[i] && (0 < i ==> (a + b)[|a| + i - 1] == b[i - 1]);
    }
  }

  /** The layout with the blanks at its start taken away. */
  function Trimmed(ts: seq<FormToken>, fills: seq<string>): string
    requires |fills| == |ts| > 0
  {
    Spelled(ts[0]) + Render(ts[1..], fills[1..])
  }

  // ---------------------------------------------------------------------------------------------
  // Plain printing is a layout
  // ---------------------------------------------------------------------------------------------

  function PlainFills(ts: seq<FormToken>): (fills: seq<string>)
    ensures |fills| == |ts| && forall i :: 0 <= i < |ts| ==> fills[i] == if ts[i] == Space then " " else ""
  {
    seq(|ts|, i requires 0 <= i < |ts| => if ts[i] == Space then " " else "")
  }

  function PlainRender(ts: seq<FormToken>): string { Render(ts, PlainFills(ts)) }

  lemma PlainAppend(a: seq<FormToken>, b: seq<FormToken>)
    ensures PlainRender(a + b) == PlainRender(a) + PlainRender(b)
  {
    var fills := PlainFills(a + b);
    assert fills[..|a|] == PlainFills(a) && fills[|a|..] == PlainFills(b);
    RenderAppend(a, b, fills);
  }

  lemma PlainOne(tok: FormToken)
    ensures PlainRender([tok]) == if tok == Space then " " else Spelled(tok)
  {
    var fills := PlainFills([tok]);
    assert Render([tok][1..], fills[1..]) == "";
    assert Render([tok], fills) == fills[0] + Spelled(tok);
  }

  /** Without quotes, no token is a quote mark. */
  lemma {:induction false} NoQuoteMarks(o: Object)
    ensures Quote !in Toks(o, false)
    decreases o, 0
  {
    match o
    case Pair(car, cdr) =>
      NoQuoteMarks(car);
      NoQuoteMarksRest(cdr);
    case Arr(elems) => NoQuoteMarksElems(elems);
    case _ =>
  }

  lemma {:induction false} NoQuoteMarksRest(rest: Object)
    ensures Quote !in RestToks(rest, false)
    decreases rest, 1
  {
    match rest
    case Nil =>
    case Pair(car, cdr) =>
      NoQuoteMarks(car);
      NoQuoteMarksRest(cdr);
    case _ => NoQuoteMarks(rest);
  }

  lemma {:induction false} NoQuoteMarksElems(elems: seq<Object>)
    ensures Quote !in ElemToks(elems, false)
    decreases elems, 0
  {
    if elems != [] {
      NoQuoteMarks(elems[0]);
      NoQuoteMarksElems(elems[1..]);
    }
  }

  lemma PlainThree(tok: FormToken, a: seq<FormToken>, b: seq<FormToken>)
    ensures PlainRender([tok] + (a + b))
        == (if tok == Space then " " else Spelled(tok)) + (PlainRender(a) + PlainRender(b))
  {
    PlainAppend([tok], a + b);
    PlainAppend(a, b);
    PlainOne(tok);
  }

  lemma PlainDotted(ts: seq<FormToken>)
    ensures PlainRender([Space] + ([Dot] + ([Space] + (ts + [Close])))) == " " + (". " + (PlainRender(ts) + ")"))
  {
    PlainThree(Space, [Dot], [Space] + (ts + [Close]));
    PlainThree(Space, ts, [Close]);
    PlainOne(Dot);
    PlainOne(Close);
    DotSpace(PlainRender(ts) + ")");
  }

  lemma DotSpace(s: string)
    ensures "." + (" " + s) == ". " + s
  {
  }

  /** Printing an object spells out its tokens. */
  lemma {:induction false} PrintIsPlain(o: Object)
    ensures Print(o) == PlainRender(Toks(o, false))
    decreases o, 0
  {
    if o.Nil? {
      PlainOne(Empty);
    } else if o.Pair? {
      PrintIsPlain(o.car);
      PrintRestIsPlain(o.cdr);
      PlainThree(Open, Toks(o.car, false), RestToks(o.cdr, false));
    } else if o.Arr? {
      PrintElemsIsPlain(o.elems);
      PlainThree(ArrayOpen, ElemToks(o.elems, false), [Close]);
      PlainOne(Close);
    } else {
      PlainOne(Text(Print(o)));
    }
  }

  lemma {:induction false} PrintRestIsPlain(rest: Object)
    ensures PrintRest(rest) == PlainRender(RestToks(rest, false))
    decreases rest, 1
  {
    if rest.Nil? {
      PlainOne(Close);
    } else if rest.Pair? {
      PrintIsPlain(rest.car);
      PrintRestIsPlain(rest.cdr);
      PlainThree(Space, Toks(rest.car, false), RestToks(rest.cdr, false));
    } else {
      PrintIsPlain(rest);
      PlainDotted(Toks(rest, false));
    }
  }

  lemma {:induction false} PrintElemsIsPlain(elems: seq<Object>)
    ensures PrintElems(elems) == PlainRender(ElemToks(elems, false))
    decreases elems, 0
  {
    if elems == [] {
    } else if |elems| == 1 {
      PrintIsPlain(elems[0]);
    } else {
      PrintIsPlain(elems[0]);
      PrintElemsIsPlain(elems[1..]);
      PlainAppend(Toks(elems[0], false), [Space] + ElemToks(elems[1..], false));
      PlainAppend([Space], ElemToks(elems[1..], false));
      PlainOne(Space);
    }
  }
}

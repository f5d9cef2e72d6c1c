/**
 The laws of reading and printing on whole texts: what was printed is read back as it was, for
 all objects whose leaves print readably, and for each kind of leaf exactly when that is.
 */
module ReadLaws {
  import opened GoosObjects
  import opened Reader
  import opened FormTokens
  import opened ReadBack

  /** What reading a text with just this object in it gives. */
  function TopLevel(o: Object): Object { Pair(Sym("top-level"), Pair(o, Nil)) }

  predicate ReadsAs(text: string, o: Object) { ReadText(text) == Ok(TopLevel(o), "") }

  // ---------------------------------------------------------------------------------------------
  // Everything that is printed is source text
  // ---------------------------------------------------------------------------------------------

  predicate TokensSource(ts: seq<FormToken>) { forall i :: 0 <= i < |ts| ==> AllSource(Spelled(ts[i])) }

  lemma {:induction false} RenderIsSource(ts: seq<FormToken>, fills: seq<string>)
    requires |fills| == |ts| && TokensSource(ts) && forall i :: 0 <= i < |ts| ==> Blank(fills[i])
    ensures AllSource(Render(ts, fills))
  {
    if ts != [] { RenderIsSource(ts[1..], fills[1..]); }
  }

  lemma LeafIsSource(o: Object, sugar: bool)
    requires Printable(o, sugar) && !o.Nil? && !o.Pair? && !o.Arr?
    ensures AllSource(Print(o))
  {
    if !o.Str? { AtomReads(o, ""); }
  }

  lemma MarksAreSource()
    ensures TokensSource([]) && TokensSource([Quote]) && TokensSource([Open]) && TokensSource([ArrayOpen])
            && TokensSource([Close]) && TokensSource([Empty])
  {
  }

  lemma SourceAppend(a: seq<FormToken>, b: seq<FormToken>, c: seq<FormToken>)
    requires TokensSource(a) && TokensSource(b) && TokensSource(c)
    ensures TokensSource(a + (b + c))
  {
  }

  lemma {:induction false} ToksAreSource(o: Object, sugar: bool)
    requires Printable(o, sugar)
    ensures TokensSource(Toks(o, sugar))
    decreases o, 1
  {
    hide TokensSource, CharOk, StringOk, SymbolOk;
    MarksAreSource();
    if o.Pair? {
      if sugar && QuoteForm(o) {
        ToksAreSource(o.cdr.car, sugar);
        SourceAppend([Quote], Toks(o.cdr.car, sugar), []);
        assert Toks(o, sugar) == [Quote] + (Toks(o.cdr.car, sugar) + []);
      } else {
        ListToksAreSource(o.car, o.cdr, sugar);
      }
    } else if o.Arr? {
      ElemToksAreSource(o.elems, sugar);
      SourceAppend([ArrayOpen], ElemToks(o.elems, sugar), [Close]);
    } else if !o.Nil? {
      LeafToksAreSource(o, sugar);
    }
  }

  lemma LeafToksAreSource(o: Object, sugar: bool)
    requires Printable(o, sugar) && !o.Nil? && !o.Pair? && !o.Arr?
    ensures TokensSource(Toks(o, sugar))
  {
    LeafIsSource(o, sugar);
  }

  lemma {:induction false} ListToksAreSource(car: Object, cdr: Object, sugar: bool)
    requires Printable(car, sugar) && Printable(cdr, sugar)
    ensures TokensSource([Open] + (Toks(car, sugar) + RestToks(cdr, sugar)))
    decreases Pair(car, cdr), 0
  {
    ToksAreSource(car, sugar);
    RestToksAreSource(cdr, sugar);
    SourceAppend([Open], Toks(car, sugar), RestToks(cdr, sugar));
  }

  lemma {:induction false} RestToksAreSource(rest: Object, sugar: bool)
    requires Printable(rest, sugar)
    ensures TokensSource(RestToks(rest, sugar))
    decreases rest, 2
  {
    if rest.Pair? {
      ToksAreSource(rest.car, sugar);
      RestToksAreSource(rest.cdr, sugar);
      SourceAppend([Space], Toks(rest.car, sugar), RestToks(rest.cdr, sugar));
    } else if !rest.Nil? {
      ToksAreSource(rest, sugar);
      SourceAppend([Space], Toks(rest, sugar), [Close]);
      SourceAppend([Space], [Dot], [Space] + (Toks(rest, sugar) + [Close]));
    }
  }

  lemma {:induction false} ElemToksAreSource(elems: seq<Object>, sugar: bool)
    requires forall i :: 0 <= i < |elems| ==> Printable(elems[i], sugar)
    ensures TokensSource(ElemToks(elems, sugar))
    decreases elems, 0
  {
    if elems != [] {
      ToksAreSource(elems[0], sugar);
      ElemToksAreSource(elems[1..], sugar);
      SourceAppend(Toks(elems[0], sugar), [Space], ElemToks(elems[1..], sugar));
    }
  }

  // ---------------------------------------------------------------------------------------------
  // The round trips
  // ---------------------------------------------------------------------------------------------

  /** Every layout of the object's tokens reads back as the object. */
  lemma LayoutReadsBack(o: Object, sugar: bool, fills: seq<string>)
    requires Printable(o, sugar) && FillsOk(Toks(o, sugar), fills)
    ensures ReadsAs(Render(Toks(o, sugar), fills), o)
  {
    var ts, p := Toks(o, sugar), Partial([], false, false);
    var text, s := Render(ts, fills), Trimmed(ts, fills);
    ToksAreSource(o, sugar);
    RenderIsSource(ts, fills);
    ItemReads(o, sugar, fills, "", [], false, p);
    SkipBlank(fills[0], s);
    RenderTrimmed(ts, fills, "");
    assert text + "" == text && s + "" == s;
    OnlyItem(s, o, p);
    assert SkipSpace(text) == s && SkipSpace(s) == s;
  }

  /** With nothing behind it the one object makes the whole list. */
  lemma OnlyItem(s: string, o: Object, p: Partial)
    requires p == Partial([], false, false) && Taken(s, o, "", [], false, p)
    ensures ListLoop(s, false, p) == Ok(Pair(o, Nil), "")
  {
    assert Wrap([], o) == o && p.Add(o).objs == [o];
    assert ListOnto([o][1..], Nil) == Nil;
  }

  /** Reading what `print` wrote gives the object back. */
  lemma ReadUndoesPrint(o: Object)
    requires Printable(o, false)
    ensures ReadsAs(Print(o), o)
  {
    NoQuoteMarks(o);
    PrintIsPlain(o);
    LayoutReadsBack(o, false, PlainFills(Toks(o, false)));
  }

  // ---------------------------------------------------------------------------------------------
  // The conditions on leaves are exact
  // ---------------------------------------------------------------------------------------------

  /** Once a list has its first entry it keeps it. */
  lemma {:induction false} FirstStays(s: string, expectClose: bool, p: Partial)
    requires p.objs != []
    ensures ListLoop(s, expectClose, p).Ok? ==>
        ListLoop(s, expectClose, p).value.Pair? && ListLoop(s, expectClose, p).value.car == p.objs[0]
    decreases |s|, 0
  {
    if s == "" {
      if Finish(p, false, expectClose, s).Ok? { FinishedFirst(p, false, expectClose, s); }
    } else {
      var n := TokenLength(s);
      if IsMacro(s[..n]) {
        QuotedFirstStays(s[..n], s[n..], [], expectClose, p);
      } else if !IsDot(s[..n]) {
        EntryFirstStays(s[..n], s[n..], [], expectClose, p);
      } else {
        var t := SkipSpace(s[n..]);
        if t != "" { EntryFirstStays(t[..TokenLength(t)], t[TokenLength(t)..], [], expectClose, p.(dot := true)); }
      }
    }
  }

  lemma FinishedFirst(p: Partial, closed: bool, expectClose: bool, rest: string)
    requires p.objs != [] && Finish(p, closed, expectClose, rest).Ok?
    ensures Finish(p, closed, expectClose, rest).value.Pair?
            && Finish(p, closed, expectClose, rest).value.car == p.objs[0]
  {
  }

  lemma {:induction false} QuotedFirstStays(tok: string, s: string, stack: seq<string>, expectClose: bool, p: Partial)
    requires tok != "" && p.objs != []
    ensures var r := Quoted(tok, s, stack, expectClose, p); r.Ok? ==> r.value.Pair? && r.value.car == p.objs[0]
    decreases |s|, 2
  {
    if !IsMacro(tok) {
      EntryFirstStays(tok, s, stack, expectClose, p);
    } else if s != "" {
      QuotedFirstStays(s[..TokenLength(s)], s[TokenLength(s)..], stack + [MacroName(tok)], expectClose, p);
    }
  }

  lemma {:induction false} EntryFirstStays(tok: string, s: string, stack: seq<string>, expectClose: bool, p: Partial)
    requires tok != "" && p.objs != []
    ensures var r := Entry(tok, s, stack, expectClose, p); r.Ok? ==> r.value.Pair? && r.value.car == p.objs[0]
    decreases |s|, 1
  {
    if tok[0] == ')' {
      if Finish(p, true, expectClose, s).Ok? { FinishedFirst(p, true, expectClose, s); }
    } else if ReadOne(tok, s).Ok? {
      FirstStays(SkipSpace(ReadOne(tok, s).rest), expectClose, p.Add(Wrap(stack, ReadOne(tok, s).value)));
    }
  }

  /** If the first object is another one, the text does not read as `o`. */
  lemma FirstDiffers(text: string, first: Object, rest: string, o: Object)
    requires Reads(text, first, rest) && first != o
    ensures !ReadsAs(text, o)
  {
    var p := Partial([], false, false);
    ReadsIsTaken(text, first, rest, [], false, p);
    FirstStays(SkipSpace(rest), false, p.Add(Wrap([], first)));
    assert ListLoop(text, false, p) == ListLoop(SkipSpace(rest), false, p.Add(first));
  }

  lemma FirstFails(text: string)
    requires text != "" && SkipSpace(text) == text && text[0] != ')'
    requires !IsMacro(text[..TokenLength(text)]) && !IsDot(text[..TokenLength(text)])
    requires ReadOne(text[..TokenLength(text)], text[TokenLength(text)..]).Error?
    ensures ReadText(text).Error?
  {
    assert ListLoop(text, false, Partial([], false, false)).Error?;
  }

  /** Characters read back unless they print as a number or their last character ends the token too soon. */
  lemma CharReadsBack(c: char)
    requires c as int < 256
    ensures ReadsAs(PrintChar(c), Chr(c)) <==> CharOk(c)
  {
    var text := PrintChar(c);
    if CharOk(c) {
      ReadUndoesPrint(Chr(c));
    } else if PrintableChar(c) {
      var tok := "#\\";
      assert text[..2] == tok && text[1..] == ['\\', c] && text[1..][1..] == [c];
      BackslashIsNoNumber(tok);
      FirstDiffers(text, Sym(tok), text[2..], Chr(c));
    } else {
      UnprintableIsSymbol(c as int, text);
      FirstDiffers(text, Sym(text), "", Chr(c));
    }
  }

  lemma UnprintableIsSymbol(n: nat, text: string)
    requires text == "#\\{" + Numeral(n, 10) + "}"
    ensures Reads(text, Sym(text), "")
  {
    var digits := Numeral(n, 10);
    NumeralDenotes(n, 10);
    DigitsLex(digits, 10);
    BackslashIsNoNumber(text);
    assert text[1..] == "\\{" + digits + "}";
    LexesAsOne(text, "");
    assert text + "" == text && text[..|text|] == text && text[|text|..] == "";
  }

  /** Strings read back if and only if they hold no quote, no backslash and nothing but source characters. */
  lemma StringReadsBack(data: string)
    ensures ReadsAs(Print(Str(data)), Str(data)) <==> StringOk(data)
  {
    var text := Print(Str(data));
    if StringOk(data) {
      ReadUndoesPrint(Str(data));
    } else if ReadsAs(text, Str(data)) {
      assert forall i :: 0 <= i < |data| ==> data[i] == text[i + 1];
      assert text[..1] == "\"" && text[1..] == data + "\"";
      assert TryNumber("\"") == No;
      LiteralString(data + "\"");
      match ReadString(data + "\"") {
        case Error => FirstFails(text);
        case Ok(v, rest) => if v != data { FirstDiffers(text, Str(v), rest, Str(data)); }
      }
    }
  }

  /** A string takes up at least as many characters as it has; just as many only if none is written as an escape. */
  lemma {:induction false} LiteralString(s: string)
    ensures match ReadString(s)
            case Error => true
            case Ok(v, rest) =>
              |v| + 1 + |rest| <= |s|
                  && (|v| + 1 == |s| ==> s == v + "\"" && forall i :: 0 <= i < |v| ==> v[i] != '"' && v[i] != '\\')
  {
    if s != "" && s[0] != '"' && StringChar(s).Ok? {
      var s' := StringChar(s).rest;
      LiteralString(s');
      if s[0] != '\\' { assert s == [s[0]] + s'; }
    }
  }

  // ---------------------------------------------------------------------------------------------
  // Symbols
  // ---------------------------------------------------------------------------------------------

  /** After a dot and one object alone nothing can follow. */
  lemma {:induction false} EndedAlone(s: string, p: Partial)
    requires p.dot && p.ended && |p.objs| < 2
    ensures ListLoop(s, false, p).Error?
  {
    if s != "" && IsMacro(s[..TokenLength(s)]) { EndedQuoted(s[..TokenLength(s)], s[TokenLength(s)..], [], p); }
  }

  lemma {:induction false} EndedQuoted(tok: string, s: string, stack: seq<string>, p: Partial)
    requires tok != "" && p.ended && |p.objs| < 2
    ensures Quoted(tok, s, stack, false, p).Error?
    decreases |s|
  {
    if IsMacro(tok) && s != "" { EndedQuoted(s[..TokenLength(s)], s[TokenLength(s)..], stack + [MacroName(tok)], p); }
  }

  /** A list that starts with a reader macro starts with a list. */
  lemma {:induction false} QuotedStartsWithList(tok: string, s: string, stack: seq<string>)
    requires tok != "" && (IsMacro(tok) || stack != [])
    ensures var r := Quoted(tok, s, stack, false, Partial([], false, false));
        r.Ok? ==> r.value.Pair? && r.value.car.Pair?
    decreases |s|
  {
    var p := Partial([], false, false);
    if !IsMacro(tok) {
      if tok[0] != ')' && ReadOne(tok, s).Ok? {
        var o := Wrap(stack, ReadOne(tok, s).value);
        WrapIsList(stack, ReadOne(tok, s).value);
        FirstStays(SkipSpace(ReadOne(tok, s).rest), false, p.Add(o));
      }
    } else if s != "" {
      QuotedStartsWithList(s[..TokenLength(s)], s[TokenLength(s)..], stack + [MacroName(tok)]);
    }
  }

  lemma {:induction false} WrapIsList(stack: seq<string>, o: Object)
    ensures stack != [] || o.Pair? ==> Wrap(stack, o).Pair?
  {
    if stack != [] { WrapIsList(stack[..|stack| - 1], Pair(Sym(stack[|stack| - 1]), Pair(o, Nil))); }
  }

  /** If a text reads as one symbol, it is that symbol's token. */
  lemma ReadAsSymbol(text: string, name: string)
    requires ReadsAs(text, Sym(name))
    ensures var s := SkipSpace(text);
            s != "" && !IsMacro(s[..TokenLength(s)]) && !IsDot(s[..TokenLength(s)])
            && s[0] != ')' && ReadOne(s[..TokenLength(s)], s[TokenLength(s)..]).Ok?
            && ReadOne(s[..TokenLength(s)], s[TokenLength(s)..]).value == Sym(name)
  {
    var p, s := Partial([], false, false), SkipSpace(text);
    SkipSpaceTwice(text);
    assert ListLoop(s, false, p) == Ok(Pair(Sym(name), Nil), "");
    if s != "" {
      var tok, rest := s[..TokenLength(s)], s[TokenLength(s)..];
      if IsMacro(tok) {
        QuotedStartsWithList(tok, rest, []);
      } else if IsDot(tok) {
        DotFirst(s);
      } else {
        EntryIsFirst(tok, rest, Sym(name));
      }
    }
  }

  lemma EntryIsFirst(tok: string, s: string, o: Object)
    requires tok != "" && Entry(tok, s, [], false, Partial([], false, false)) == Ok(Pair(o, Nil), "")
    ensures tok[0] != ')' && ReadOne(tok, s).Ok? && ReadOne(tok, s).value == o
  {
    if tok[0] != ')' && ReadOne(tok, s).Ok? {
      FirstStays(SkipSpace(ReadOne(tok, s).rest), false,
                 Partial([], false, false).Add(Wrap([], ReadOne(tok, s).value)));
    }
  }

  lemma DotFirst(s: string)
    requires s != "" && IsDot(s[..TokenLength(s)])
    ensures ListLoop(s, false, Partial([], false, false)).Error?
  {
    var t := SkipSpace(s[TokenLength(s)..]);
    if t != "" {
      var tok, rest := t[..TokenLength(t)], t[TokenLength(t)..];
      var p := Partial([], true, false);
      if tok[0] != ')' && ReadOne(tok, rest).Ok? {
        EndedAlone(SkipSpace(ReadOne(tok, rest).rest), p.Add(Wrap([], ReadOne(tok, rest).value)));
      }
    }
  }

  lemma {:induction false} SkipSpaceTwice(s: string)
    ensures SkipSpace(SkipSpace(s)) == SkipSpace(s)
    decreases |s|
  {
    if s == "" {
    } else if s[0] == ' ' || s[0] == '\t' || s[0] == '\n' {
      SkipSpaceTwice(s[1..]);
    } else if s[0] == ';' {
      SkipSpaceTwice(After(s, '\n'));
    } else if s[0] == '#' && |s| > 1 && s[1] == '|' {
      SkipSpaceTwice(AfterBlock(s[2..]));
    }
  }

  /** Symbols read back if and only if their name is one token that is no number, no character and no dot. */
  lemma SymbolReadsBack(name: string)
    ensures ReadsAs(Print(Sym(name)), Sym(name)) <==> SymbolOk(name)
  {
    if SymbolOk(name) {
      ReadUndoesPrint(Sym(name));
    } else if ReadsAs(name, Sym(name)) {
      ReadAsSymbol(name, name);
      var s := SkipSpace(name);
      SymbolIsToken(s[..TokenLength(s)], s[TokenLength(s)..], name);
      assert s == name && name[..TokenLength(name)] == name;
      WholeTokenLexes(name);
    }
  }

  lemma SymbolIsToken(tok: string, s: string, name: string)
    requires tok != "" && ReadOne(tok, s).Ok? && ReadOne(tok, s).value == Sym(name)
    ensures tok == name && TryNumber(tok) == No && TryChar(tok) == No && SymbolStart(tok[0]) && tok[0] != '('
            && tok != "#("
  {
  }

  lemma CommaIsMacro(name: string)
    requires name != "" && name[0] == ',' && TokenLength(name) == |name|
    ensures IsMacro(name)
  {
    if |name| == 1 { assert name == ","; } else { assert name == ",@"; }
  }

  lemma WholeTokenLexes(name: string)
    requires name != "" && SkipSpace(name) == name && TokenLength(name) == |name| && !IsMacro(name)
             && SymbolStart(name[0]) && name != "#("
    ensures Lexes(name)
  {
    if name[0] == ',' { CommaIsMacro(name); }
    if name[0] == '#' && |name| == 2 { assert name == ['#', name[1]]; }
  }
}

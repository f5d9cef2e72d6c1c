/**
 Reading undoes printing: however the tokens of an object are laid out, the reader makes the
 same object of the text again.
 */
module ReadBack {
  import opened GoosObjects
  import opened Reader
  import opened FormTokens

  // ---------------------------------------------------------------------------------------------
  // What can be printed so that it can be read
  // ---------------------------------------------------------------------------------------------

  predicate Unbroken(text: string) { forall i :: 0 <= i < |text| ==> !EndsToken(text[i]) }

  /** A first character that makes no ordinary token. */
  predicate StandsAlone(c: char) {
    c == '(' || c == ')' || c == '"' || c == '\'' || c == '`' || c == ',' || c == ';' || c == ' ' || c == '\n'
        || c == '\t'
  }

  /** The text is one token, whatever comes behind it, and not a reader macro. */
  predicate Lexes(text: string) {
    && text != "" && !StandsAlone(text[0])
    && Unbroken(text[1..])
    && (text[0] == '#' && |text| > 1 ==> text[1] != '|')
  }

  predicate SymbolOk(name: string) {
    Lexes(name) && AllSource(name) && SymbolStart(name[0]) && !IsDot(name) && TryNumber(name) == No
        && TryChar(name) == No
  }

  predicate CharOk(c: char) { (PrintableChar(c) && !EndsToken(c)) || c == ' ' || c == '\n' || c == '\t' }

  predicate StringOk(data: string)
  {
    forall i :: 0 <= i < |data| ==> SourceChar(data[i]) && data[i] != '"' && data[i] != '\\'
  }

  /** Floats are not modelled; the pretty printer, which writes quote marks, takes no arrays. */
  predicate Printable(o: Object, sugar: bool) {
    match o
    case Nil => true
    case Int(v) => IsS64(v)
    case Float(_) => false
    case Chr(c) => CharOk(c)
    case Sym(name) => SymbolOk(name)
    case Str(data) => StringOk(data)
    case Pair(car, cdr) => Printable(car, sugar) && Printable(cdr, sugar)
    case Arr(elems) => !sugar && forall i :: 0 <= i < |elems| ==> Printable(elems[i], sugar)
  }

  // ---------------------------------------------------------------------------------------------
  // Tokens
  // ---------------------------------------------------------------------------------------------

  /** The text ends here or goes on with something no token runs into. */
  predicate EndsHere(tail: string) { tail == "" || tail[0] == ' ' || tail[0] == '\n' || tail[0] == ')' }

  lemma {:induction false} SkipBlank(blank: string, s: string)
    requires Blank(blank)
    ensures SkipSpace(blank + s) == SkipSpace(s)
  {
    if blank == "" {
      assert blank + s == s;
    } else {
      assert (blank + s)[1..] == blank[1..] + s;
      SkipBlank(blank[1..], s);
    }
  }

  lemma {:induction false} RunToEnd(run: string, tail: string)
    requires Unbroken(run) && EndsHere(tail)
    ensures RunLength(run + tail) == |run|
  {
    if run == "" {
      assert run + tail == tail;
    } else {
      assert (run + tail)[1..] == run[1..] + tail;
      RunToEnd(run[1..], tail);
    }
  }

  lemma LexesAsOne(text: string, tail: string)
    requires Lexes(text) && EndsHere(tail)
    ensures SkipSpace(text + tail) == text + tail && TokenLength(text + tail) == |text| && !IsMacro(text)
  {
    assert (text + tail)[1..] == text[1..] + tail;
    RunToEnd(text[1..], tail);
    if |text| > 1 { assert text[1..][0] == text[1]; }
  }

  // ---------------------------------------------------------------------------------------------
  // Atoms
  // ---------------------------------------------------------------------------------------------

  /** From the first token of `s` on, the reader finds `o` and leaves `tail`. */
  ghost predicate Reads(s: string, o: Object, tail: string) {
    && s != "" && SkipSpace(s) == s && s[0] != ')'
    && !IsMacro(s[..TokenLength(s)]) && !IsDot(s[..TokenLength(s)])
    && ReadOne(s[..TokenLength(s)], s[TokenLength(s)..]) == Ok(o, tail)
  }

  lemma DigitsLex(digits: string, base: nat)
    requires AllDigits(digits, base) && base <= 16
    ensures Unbroken(digits) && AllSource(digits) && forall i :: 0 <= i < |digits| ==> digits[i] != '.'
  {
  }

  lemma HashIsNotDecimal(text: string)
    requires text != "" && text[0] == '#'
    ensures !DecimalForm(text) && !FloatForm(text)
  {
    assert text[0] != '.' && DigitValue(text[0]) == 16;
  }

  lemma HexReads(digits: string, v: int)
    requires digits != "" && AllDigits(digits, 16) && Value(digits, 16) == v && IsS64(v)
    ensures Lexes("#x" + digits) && AllSource("#x" + digits) && TryNumber("#x" + digits) == Yes(Int(v))
  {
    var text := "#x" + digits;
    DigitsLex(digits, 16);
    HashIsNotDecimal(text);
    assert text[2..] == digits && text[1..] == "x" + digits;
  }

  lemma DecimalReads(v: int)
    requires v <= 10000 && IsS64(v)
    ensures Lexes(PrintInt(v)) && AllSource(PrintInt(v)) && !IsDot(PrintInt(v)) && TryNumber(PrintInt(v)) == Yes(Int(v))
  {
    hide Numeral, TryRadix, TryFloat, FloatForm;
    var n: nat := if v < 0 then -v else v;
    var digits, text := Numeral(n, 10), PrintInt(v);
    NumeralDenotes(n, 10);
    DigitsLex(digits, 10);
    if v < 0 {
      assert text[1..] == digits && text[0] == '-';
    } else {
    }
  }

  lemma BackslashIsNoNumber(text: string)
    requires |text| >= 2 && text[0] == '#' && text[1] == '\\'
    ensures TryNumber(text) == No
  {
    HashIsNotDecimal(text);
  }

  lemma CharReads(c: char)
    requires CharOk(c)
    ensures var text := PrintChar(c);
            Lexes(text) && AllSource(text) && !IsDot(text) && TryNumber(text) == No && TryChar(text) == Yes(Chr(c))
  {
    BackslashIsNoNumber(PrintChar(c));
  }

  predicate IsAtom(o: Object) { o.Int? || o.Chr? || o.Sym? }

  lemma AtomReads(o: Object, tail: string)
    requires IsAtom(o) && Printable(o, false) && EndsHere(tail)
    ensures Reads(Print(o) + tail, o, tail) && AllSource(Print(o))
  {
    var text := Print(o);
    match o {
      case Int(v) =>
        if v > 10000 {
          NumeralDenotes(v, 16);
          HexReads(Numeral(v, 16), v);
        } else {
          DecimalReads(v);
        }
      case Chr(c) => CharReads(c);
      case Sym(name) =>
    }
    LexesAsOne(text, tail);
    var s := text + tail;
    assert s[..|text|] == text && s[|text|..] == tail;
    if |text| > 1 { assert text[1..][0] == text[1]; }
  }

  lemma {:induction false} StringReads(data: string, tail: string)
    requires StringOk(data)
    ensures ReadString(data + "\"" + tail) == Ok(data, tail)
  {
    var s := data + "\"" + tail;
    if data == "" {
      assert s[1..] == tail;
    } else {
      assert s[1..] == data[1..] + "\"" + tail;
      assert StringOk(data[1..]);
      StringReads(data[1..], tail);
      assert [data[0]] + data[1..] == data;
    }
  }

  lemma QuotedStringReads(data: string, tail: string)
    requires StringOk(data)
    ensures Reads("\"" + data + "\"" + tail, Str(data), tail)
  {
    var s := "\"" + data + "\"" + tail;
    StringReads(data, tail);
    assert s[1..] == data + "\"" + tail && s[..1] == "\"";
    assert TryNumber("\"") == No;
  }

  // ---------------------------------------------------------------------------------------------
  // Lists and arrays
  // ---------------------------------------------------------------------------------------------

  /** The text of a layout from its first token on. */
  lemma TrimmedCons(tok: FormToken, ts: seq<FormToken>, fills: seq<string>, tail: string)
    requires |fills| == 1 + |ts|
    ensures Trimmed([tok] + ts, fills) + tail == Spelled(tok) + (Render(ts, fills[1..]) + tail)
  {
    assert ([tok] + ts)[1..] == ts;
  }

  lemma RenderSplit(a: seq<FormToken>, b: seq<FormToken>, fills: seq<string>, tail: string)
    requires |fills| == |a| + |b|
    ensures Render(a + b, fills) + tail == Render(a, fills[..|a|]) + (Render(b, fills[|a|..]) + tail)
  {
    RenderAppend(a, b, fills);
    Regroup(Render(a, fills[..|a|]), Render(b, fills[|a|..]), tail);
  }

  lemma Regroup(a: string, b: string, c: string)
    ensures a + b + c == a + (b + c)
  {
  }

  lemma RenderTrimmed(ts: seq<FormToken>, fills: seq<string>, tail: string)
    requires |fills| == |ts| > 0
    ensures Render(ts, fills) + tail == fills[0] + (Trimmed(ts, fills) + tail)
  {
  }

  lemma ListStart(s: string, o: Object, tail: string)
    requires ReadList(s, true) == Ok(o, tail)
    ensures Reads("(" + s, o, tail)
  {
    assert ("(" + s)[..1] == "(" && ("(" + s)[1..] == s;
  }

  lemma ArrayStart(s: string, o: Object, tail: string)
    requires ArrayLoop(SkipSpace(s), []) == Ok(o, tail)
    ensures Reads("#(" + s, o, tail)
  {
    assert ("#(" + s)[..2] == "#(" && ("#(" + s)[2..] == s;
    HashIsNotDecimal("#(");
  }

  lemma QuoteStart(s: string, o: Object, tail: string, stack: seq<string>, expectClose: bool, p: Partial)
    requires Taken(s, o, tail, stack + ["quote"], expectClose, p)
    ensures Taken("'" + s, Pair(Sym("quote"), Pair(o, Nil)), tail, stack, expectClose, p)
  {
    assert ("'" + s)[..1] == "'" && ("'" + s)[1..] == s;
    assert (stack + ["quote"])[..|stack|] == stack;
  }

  /** One object that does not start with a quote mark. */
  lemma {:induction false} ObjectReads(o: Object, sugar: bool, fills: seq<string>, tail: string)
    requires Printable(o, sugar) && FillsOk(Toks(o, sugar), fills) && EndsHere(tail) && !(sugar && QuoteForm(o))
    ensures Reads(Trimmed(Toks(o, sugar), fills) + tail, o, tail)
    decreases o, 2
  {
    match o
    case Nil => EmptyReads(fills, tail);
    case Pair(car, cdr) =>
      var ts := Toks(car, sugar) + RestToks(cdr, sugar);
      FillsSplit([Open], ts, fills);
      ListReads(car, cdr, sugar, fills[1..], tail);
      ListStart(Render(ts, fills[1..]) + tail, o, tail);
      TrimmedCons(Open, ts, fills, tail);
    case Arr(elems) =>
      var ts := ElemToks(elems, sugar) + [Close];
      FillsSplit([ArrayOpen], ts, fills);
      ElemsRead(elems, fills[1..], tail, []);
      assert [] + elems == elems;
      ArrayStart(Render(ts, fills[1..]) + tail, o, tail);
      TrimmedCons(ArrayOpen, ts, fills, tail);
    case Str(data) =>
      QuotedStringReads(data, tail);
      SingleText(Print(o), fills, tail);
    case _ =>
      AtomReads(o, tail);
      SingleText(Print(o), fills, tail);
  }

  lemma SingleText(text: string, fills: seq<string>, tail: string)
    requires |fills| == 1
    ensures Trimmed([Text(text)], fills) + tail == text + tail
  {
    assert Render([Text(text)][1..], fills[1..]) == "";
    assert text + "" == text;
  }

  lemma EmptyReads(fills: seq<string>, tail: string)
    requires |fills| == 1
    ensures Reads(Trimmed([Empty], fills) + tail, Nil, tail)
  {
    var s := Trimmed([Empty], fills) + tail;
    assert s[..1] == "(" && s[1..] == ")" + tail;
    CloseReads(tail, Partial([], false, false));
  }

  /** A close paren ends a list. */
  lemma CloseReads(tail: string, p: Partial)
    requires !p.dot && !p.ended
    ensures SkipSpace(")" + tail) == ")" + tail && ListLoop(")" + tail, true, p) == Ok(ListOnto(p.objs, Nil), tail)
  {
    var s := ")" + tail;
    assert s[..1] == ")" && s[1..] == tail;
  }

  /** Behind the open paren of a list. */
  lemma {:induction false} ListReads(car: Object, cdr: Object, sugar: bool, fills: seq<string>, tail: string)
    requires Printable(car, sugar) && Printable(cdr, sugar) && FillsOk(Toks(car, sugar) + RestToks(cdr, sugar), fills)
    ensures ReadList(Render(Toks(car, sugar) + RestToks(cdr, sugar), fills) + tail, true) == Ok(Pair(car, cdr), tail)
    decreases Pair(car, cdr), 1
  {
    EntryReads(car, cdr, sugar, fills, tail, Partial([], false, false));
    assert ListOnto([], Pair(car, cdr)) == Pair(car, cdr);
  }

  /** One entry of a list and all that follow. */
  lemma {:induction false} EntryReads(car: Object, cdr: Object, sugar: bool, fills: seq<string>, tail: string,
                                      p: Partial)
    requires Printable(car, sugar) && Printable(cdr, sugar) && FillsOk(Toks(car, sugar) + RestToks(cdr, sugar), fills)
    requires !p.dot && !p.ended
    ensures ListLoop(SkipSpace(Render(Toks(car, sugar) + RestToks(cdr, sugar), fills) + tail), true, p)
        == Ok(ListOnto(p.objs, Pair(car, cdr)), tail)
    decreases Pair(car, cdr), 0
  {
    var a, b := Toks(car, sugar), RestToks(cdr, sugar);
    FillsSplit(a, b, fills);
    var fa, fb := fills[..|a|], fills[|a|..];
    BeforeRest(cdr, sugar, fb, tail);
    ItemReads(car, sugar, fa, Render(b, fb) + tail, [], true, p);
    ItemIsEntry(a, b, fills, tail, car, true, p);
    RestReads(cdr, sugar, fb, tail, p.Add(car));
    ListOntoSnoc(p.objs, car, cdr);
  }

  lemma BeforeRest(rest: Object, sugar: bool, fills: seq<string>, tail: string)
    requires FillsOk(RestToks(rest, sugar), fills)
    ensures EndsHere(Render(RestToks(rest, sugar), fills) + tail)
  {
  }

  lemma {:induction false} ListOntoSnoc(objs: seq<Object>, o: Object, tail: Object)
    ensures ListOnto(objs + [o], tail) == ListOnto(objs, Pair(o, tail))
  {
    if objs == [] {
      assert [o][1..] == [];
    } else {
      assert (objs + [o])[1..] == objs[1..] + [o];
      ListOntoSnoc(objs[1..], o, tail);
    }
  }

  /** The reader's state after an object, with its macros. */
  ghost predicate Taken(s: string, o: Object, tail: string, stack: seq<string>, expectClose: bool, p: Partial) {
    && s != "" && SkipSpace(s) == s && !IsDot(s[..TokenLength(s)])
    && Quoted(s[..TokenLength(s)], s[TokenLength(s)..], stack, expectClose, p)
          == ListLoop(SkipSpace(tail), expectClose, p.Add(Wrap(stack, o)))
  }

  lemma ItemIsEntry(a: seq<FormToken>, b: seq<FormToken>, fills: seq<string>, tail: string, o: Object,
                    expectClose: bool, p: Partial)
    requires a != [] && FillsOk(a + b, fills)
    requires Taken(Trimmed(a, fills[..|a|]) + (Render(b, fills[|a|..]) + tail), o, Render(b, fills[|a|..]) + tail, [],
                   expectClose, p)
    ensures ListLoop(SkipSpace(Render(a + b, fills) + tail), expectClose, p)
        == ListLoop(SkipSpace(Render(b, fills[|a|..]) + tail), expectClose, p.Add(o))
  {
    var fa, tail' := fills[..|a|], Render(b, fills[|a|..]) + tail;
    SkipBlank(fa[0], Trimmed(a, fa) + tail');
    RenderTrimmed(a, fa, tail');
    RenderSplit(a, b, fills, tail);
  }

  lemma {:induction false} ItemReads(o: Object, sugar: bool, fills: seq<string>, tail: string, stack: seq<string>,
                                     expectClose: bool, p: Partial)
    requires Printable(o, sugar) && FillsOk(Toks(o, sugar), fills) && EndsHere(tail) && !p.dot && !p.ended
    ensures Taken(Trimmed(Toks(o, sugar), fills) + tail, o, tail, stack, expectClose, p)
    decreases o, 3
  {
    if sugar && QuoteForm(o) {
      var x := o.cdr.car;
      FillsSplit([Quote], Toks(x, sugar), fills);
      ItemReads(x, sugar, fills[1..], tail, stack + ["quote"], expectClose, p);
      QuoteText(Toks(x, sugar), fills, tail);
      QuoteStart(Trimmed(Toks(x, sugar), fills[1..]) + tail, x, tail, stack, expectClose, p);
    } else {
      ObjectReads(o, sugar, fills, tail);
      ReadsIsTaken(Trimmed(Toks(o, sugar), fills) + tail, o, tail, stack, expectClose, p);
    }
  }

  lemma ReadsIsTaken(s: string, o: Object, tail: string, stack: seq<string>, expectClose: bool, p: Partial)
    requires Reads(s, o, tail) && !p.dot && !p.ended
    ensures Taken(s, o, tail, stack, expectClose, p)
  {
  }

  lemma QuoteText(ts: seq<FormToken>, fills: seq<string>, tail: string)
    requires ts != [] && FillsOk([Quote] + ts, fills)
    ensures Trimmed([Quote] + ts, fills) + tail == "'" + (Trimmed(ts, fills[1..]) + tail)
  {
    TrimmedCons(Quote, ts, fills, tail);
    RenderTrimmed(ts, fills[1..], tail);
    assert ([Quote] + ts)[0] == Quote && fills[1..][0] == fills[1] == "";
    assert "" + (Trimmed(ts, fills[1..]) + tail) == Trimmed(ts, fills[1..]) + tail;
  }

  lemma {:induction false} RestReads(rest: Object, sugar: bool, fills: seq<string>, tail: string, p: Partial)
    requires Printable(rest, sugar) && FillsOk(RestToks(rest, sugar), fills) && !p.dot && !p.ended && p.objs != []
    ensures ListLoop(SkipSpace(Render(RestToks(rest, sugar), fills) + tail), true, p)
        == Ok(ListOnto(p.objs, rest), tail)
    decreases rest, 4
  {
    match rest
    case Nil =>
      SkipBlank(fills[0], ")" + tail);
      CloseReads(tail, p);
      CloseText(fills, tail);
    case Pair(car, cdr) =>
      var ts := Toks(car, sugar) + RestToks(cdr, sugar);
      FillsSplit([Space], ts, fills);
      EntryReads(car, cdr, sugar, fills[1..], tail, p);
      SkipBlank(fills[0], Render(ts, fills[1..]) + tail);
      SpaceText(ts, fills, tail);
    case _ => DottedReads(rest, sugar, fills, tail, p);
  }

  lemma CloseText(fills: seq<string>, tail: string)
    requires |fills| == 1
    ensures Render([Close], fills) + tail == fills[0] + (")" + tail)
  {
    assert Render([Close][1..], fills[1..]) == "";
  }

  lemma SpaceText(ts: seq<FormToken>, fills: seq<string>, tail: string)
    requires |fills| == 1 + |ts|
    ensures Render([Space] + ts, fills) + tail == fills[0] + (Render(ts, fills[1..]) + tail)
  {
    TrimmedCons(Space, ts, fills, tail);
    RenderTrimmed([Space] + ts, fills, tail);
    assert "" + (Render(ts, fills[1..]) + tail) == Render(ts, fills[1..]) + tail;
  }

  /** A dot, the last object and the close paren. */
  lemma {:induction false} DottedReads(rest: Object, sugar: bool, fills: seq<string>, tail: string, p: Partial)
    requires Printable(rest, sugar) && !rest.Nil? && !rest.Pair? && FillsOk(RestToks(rest, sugar), fills) && !p.dot
             && !p.ended && p.objs != []
    ensures ListLoop(SkipSpace(Render(RestToks(rest, sugar), fills) + tail), true, p)
        == Ok(ListOnto(p.objs, rest), tail)
    decreases rest, 3
  {
    var ts := Toks(rest, sugar);
    var last := ts + [Close];
    FillsSplit([Space], [Dot] + ([Space] + last), fills);
    FillsSplit([Dot], [Space] + last, fills[1..]);
    FillsSplit([Space], last, fills[1..][1..]);
    var f := fills[1..][1..][1..];
    FillsSplit(ts, [Close], f);
    var tail' := f[|ts|] + (")" + tail);
    LastText(ts, f, tail);
    ObjectReads(rest, sugar, f[..|ts|], tail');
    DotText(last, fills, tail);
    DotThenLast(fills[0], fills[1], fills[2], f[0], Trimmed(ts, f[..|ts|]) + tail', rest, tail', p);
    SkipBlank(f[|ts|], ")" + tail);
    EndedCloses(p.(dot := true).Add(rest), tail);
    assert (p.objs + [rest])[..|p.objs|] == p.objs;
  }

  lemma DotText(ts: seq<FormToken>, fills: seq<string>, tail: string)
    requires |fills| == 3 + |ts|
    ensures Render([Space] + ([Dot] + ([Space] + ts)), fills) + tail
            == fills[0] + (fills[1] + ("." + (fills[2] + (Render(ts, fills[1..][1..][1..]) + tail))))
  {
    SpaceText([Dot] + ([Space] + ts), fills, tail);
    RenderTrimmed([Dot] + ([Space] + ts), fills[1..], tail);
    TrimmedCons(Dot, [Space] + ts, fills[1..], tail);
    SpaceText(ts, fills[1..][1..], tail);
  }

  lemma LastText(ts: seq<FormToken>, fills: seq<string>, tail: string)
    requires ts != [] && FillsOk(ts + [Close], fills)
    ensures Render(ts + [Close], fills) + tail == fills[0] + (Trimmed(ts, fills[..|ts|]) + (fills[|ts|] + (")" + tail)))
    ensures EndsHere(fills[|ts|] + (")" + tail))
  {
    FillsSplit(ts, [Close], fills);
    RenderSplit(ts, [Close], fills, tail);
    CloseText(fills[|ts|..], tail);
    RenderTrimmed(ts, fills[..|ts|], fills[|ts|] + (")" + tail));
  }

  lemma DotThenLast(b0: string, b1: string, b2: string, b3: string, s: string, o: Object, tail: string, p: Partial)
    requires Blank(b0) && Blank(b1) && Blank(b2) && b2 != "" && Blank(b3) && Reads(s, o, tail) && !p.dot && !p.ended
    ensures ListLoop(SkipSpace(b0 + (b1 + ("." + (b2 + (b3 + s))))), true, p)
        == ListLoop(SkipSpace(tail), true, p.(dot := true).Add(o))
  {
    var rest := b2 + (b3 + s);
    var text := "." + rest;
    SkipBlank(b0, b1 + text);
    SkipBlank(b1, text);
    SkipBlank(b2, b3 + s);
    SkipBlank(b3, s);
    assert rest[0] == b2[0];
    assert text[1..] == rest && RunLength(rest) == 0 && TokenLength(text) == 1 && text[..1] == ".";
    assert Wrap([], o) == o;
  }

  lemma EndedCloses(p: Partial, tail: string)
    requires p.dot && p.ended && |p.objs| >= 2
    ensures SkipSpace(")" + tail) == ")" + tail
    ensures ListLoop(")" + tail, true, p) == Ok(ListOnto(p.objs[..|p.objs| - 1], p.objs[|p.objs| - 1]), tail)
  {
    var s := ")" + tail;
    assert s[..1] == ")" && s[1..] == tail;
  }

  /** The elements of an array, from behind those already read. */
  lemma {:induction false} ElemsRead(elems: seq<Object>, fills: seq<string>, tail: string, objs: seq<Object>)
    requires (forall i :: 0 <= i < |elems| ==> Printable(elems[i], false))
             && FillsOk(ElemToks(elems, false) + [Close], fills)
    ensures ArrayLoop(SkipSpace(Render(ElemToks(elems, false) + [Close], fills) + tail), objs)
        == Ok(Arr(objs + elems), tail)
    decreases elems, 5
  {
    hide Printable, ReadOne, Render, FillsOk, Toks, ElemToks, AfterFirst, Trimmed, ArrayLoop, SkipSpace, EndsHere;
    if elems == [] {
      NoElems(elems, fills, tail, objs);
    } else {
      var a, b := Toks(elems[0], false), AfterFirst(elems);
      ElemsSplit(elems);
      FillsSplit(a, b, fills);
      FillsLength(a, b, fills);
      var fb := fills[|a|..];
      var more := AfterElem(elems, fb, tail);
      ObjectReads(elems[0], false, fills[..|a|], Render(b, fb) + tail);
      ElemThenRest(a, b, fills, tail, elems[0], objs);
      ElemsRead(elems[1..], more, tail, objs + [elems[0]]);
      assert objs + [elems[0]] + elems[1..] == objs + elems;
    }
  }

  lemma NoElems(elems: seq<Object>, fills: seq<string>, tail: string, objs: seq<Object>)
    requires elems == [] && FillsOk(ElemToks(elems, false) + [Close], fills)
    ensures ArrayLoop(SkipSpace(Render(ElemToks(elems, false) + [Close], fills) + tail), objs)
        == Ok(Arr(objs + elems), tail)
  {
    SkipBlank(fills[0], ")" + tail);
    assert [] + [Close] == [Close] && objs + [] == objs;
    CloseText(fills, tail);
    ArrayCloses(tail, objs);
  }

  lemma ElemsSplit(elems: seq<Object>)
    requires elems != []
    ensures ElemToks(elems, false) + [Close] == Toks(elems[0], false) + AfterFirst(elems)
  {
  }

  function AfterFirst(elems: seq<Object>): seq<FormToken>
    requires elems != []
  {
    if |elems| == 1 then [Close] else [Space] + (ElemToks(elems[1..], false) + [Close])
  }

  lemma ArrayCloses(tail: string, objs: seq<Object>)
    ensures SkipSpace(")" + tail) == ")" + tail && ArrayLoop(")" + tail, objs) == Ok(Arr(objs), tail)
  {
    assert (")" + tail)[1..] == tail;
  }

  lemma ElemThenRest(a: seq<FormToken>, b: seq<FormToken>, fills: seq<string>, tail: string, o: Object,
                     objs: seq<Object>)
    requires a != [] && FillsOk(a + b, fills)
             && Reads(Trimmed(a, fills[..|a|]) + (Render(b, fills[|a|..]) + tail), o, Render(b, fills[|a|..]) + tail)
    ensures ArrayLoop(SkipSpace(Render(a + b, fills) + tail), objs)
        == ArrayLoop(SkipSpace(Render(b, fills[|a|..]) + tail), objs + [o])
  {
    var fa, tail' := fills[..|a|], Render(b, fills[|a|..]) + tail;
    SkipBlank(fa[0], Trimmed(a, fa) + tail');
    RenderTrimmed(a, fa, tail');
    RenderSplit(a, b, fills, tail);
  }

  lemma FillsLength(a: seq<FormToken>, b: seq<FormToken>, fills: seq<string>)
    requires FillsOk(a + b, fills)
    ensures |fills| == |a| + |b|
  {
  }

  lemma AfterElem(elems: seq<Object>, fills: seq<string>, tail: string) returns (more: seq<string>)
    requires elems != [] && FillsOk(AfterFirst(elems), fills)
    ensures EndsHere(Render(AfterFirst(elems), fills) + tail)
    ensures FillsOk(ElemToks(elems[1..], false) + [Close], more)
    ensures SkipSpace(Render(AfterFirst(elems), fills) + tail)
        == SkipSpace(Render(ElemToks(elems[1..], false) + [Close], more) + tail)
  {
    var ts := ElemToks(elems[1..], false) + [Close];
    more := if |elems| == 1 then fills else fills[1..];
    if |elems| == 1 {
      assert ts == [Close];
      CloseText(fills, tail);
    } else {
      FillsSplit([Space], ts, fills);
      SkipBlank(fills[0], Render(ts, fills[1..]) + tail);
      SpaceText(ts, fills, tail);
    }
  }
}

/**
 The reader as the source runs it: a stream with a position that every reading method moves on.
 Each method is proved to take from the text ahead what the function of `Reader` takes.
 */
module TextStreams {
  import opened GoosObjects
  import opened Reader

  lemma {:induction false} CountSnoc(s: string, c: char, x: char)
    ensures Count(s + [c], x) == Count(s, x) + if c == x then 1 else 0
  {
    if s == "" {
      assert s + [c] == [c];
    } else {
      assert (s + [c])[1..] == s[1..] + [c];
      CountSnoc(s[1..], c, x);
    }
  }

  class TextStream {
    const text: string
    var seek: nat
    var lineCount: nat

    constructor (text: string)
      ensures Valid() && Ahead() == text && this.text == text
    {
      this.text, seek, lineCount := text, 0, 0;
    }

    /** The line count is right at every position. */
    ghost predicate Valid()
      reads this
    {
      seek <= |text| && lineCount == Count(text[..seek], '\n')
    }

    function Ahead(): string
      requires seek <= |text|
      reads this
    {
      text[seek..]
    }

    method ReadChar() returns (c: char)
      requires Valid() && Ahead() != ""
      modifies this
      ensures Valid() && c == old(Ahead())[0] && Ahead() == old(Ahead())[1..]
    {
      c := text[seek];
      CountSnoc(text[..seek], c, '\n');
      assert text[..seek + 1] == text[..seek] + [c];
      seek := seek + 1;
      if c == '\n' { lineCount := lineCount + 1; }
    }

    /** Reads until a character was read or the text ends. */
    method ReadThrough(x: char)
      requires Valid()
      modifies this
      ensures Valid() && Ahead() == After(old(Ahead()), x)
    {
      var found := false;
      while seek < |text| && !found
        invariant Valid() && (if found then Ahead() else After(Ahead(), x)) == After(old(Ahead()), x)
        decreases |text| - seek, !found
      {
        var c := ReadChar();
        found := c == x;
      }
    }

    method SeekPastBlockComment()
      requires Valid()
      modifies this
      ensures Valid() && Ahead() == AfterBlock(old(Ahead()))
    {
      var found := false;
      while seek < |text| && !found
        invariant Valid() && (if found then Ahead() else AfterBlock(Ahead())) == AfterBlock(old(Ahead()))
        decreases |text| - seek, !found
      {
        ReadThrough('|');
        if seek < |text| {
          var c := ReadChar();
          found := c == '#';
        }
      }
    }

    method SeekPastWhitespaceAndComments()
      requires Valid()
      modifies this
      ensures Valid() && Ahead() == SkipSpace(old(Ahead()))
    {
      while seek < |text|
        invariant Valid() && SkipSpace(Ahead()) == SkipSpace(old(Ahead()))
        decreases |text| - seek
      {
        ghost var before := Ahead();
        var c := text[seek];
        if c == ' ' || c == '\t' || c == '\n' {
          var _ := ReadChar();
        } else if c == ';' {
          ReadThrough('\n');
        } else if c == '#' && seek + 1 < |text| && text[seek + 1] == '|' {
          var _ := ReadChar();
          var _ := ReadChar();
          assert Ahead() == before[2..];
          SeekPastBlockComment();
        } else {
          return;
        }
      }
    }

    method GetNextToken() returns (tok: string)
      requires Valid() && Ahead() != ""
      modifies this
      ensures Valid()
      ensures var n := TokenLength(old(Ahead())); tok == old(Ahead())[..n] && Ahead() == old(Ahead())[n..]
    {
      ghost var s := Ahead();
      var first := ReadChar();
      tok := [first];
      if first == '(' || first == ')' || first == '"' || first == '\'' || first == '`' { return; }
      if first == ',' {
        if seek < |text| && text[seek] == '@' {
          var c := ReadChar();
          tok := tok + [c];
        }
        return;
      }
      if first == '#' && seek < |text| && text[seek] == '(' {
        var c := ReadChar();
        tok := tok + [c];
        return;
      }
      var run := ReadRun();
      tok := tok + run;
    }

    /** Everything up to a character that ends a token. */
    method ReadRun() returns (run: string)
      requires Valid()
      modifies this
      ensures Valid()
      ensures var n := RunLength(old(Ahead())); run == old(Ahead())[..n] && Ahead() == old(Ahead())[n..]
    {
      ghost var start := seek;
      run := "";
      while seek < |text| && !EndsToken(text[seek])
        invariant Valid() && start <= seek && run == text[start..seek]
        invariant seek - start + RunLength(Ahead()) == RunLength(text[start..])
        decreases |text| - seek
      {
        var c := ReadChar();
        run := run + [c];
      }
      assert text[start..][..seek - start] == text[start..seek];
    }
  }

  /** An object or string that was read, and where that left the stream; or an exception. */
  ghost predicate Took<T(!new)>(ok: bool, value: T, ahead: string, r: Read<T>) {
    ok == r.Ok? && (ok ==> r == Ok(value, ahead))
  }

  /** One character, perhaps written as an escape. */
  method ReadStringChar(stream: TextStream) returns (ok: bool, c: char)
    requires stream.Valid() && stream.Ahead() != ""
    modifies stream
    ensures stream.Valid() && stream.seek > old(stream.seek)
            && Took(ok, c, stream.Ahead(), StringChar(old(stream.Ahead())))
  {
    c := stream.ReadChar();
    ok := true;
    if c != '\\' { return; }
    if stream.seek == |stream.text| { return false, c; }
    c := stream.ReadChar();
    if c == 'n' {
      c := '\n';
    } else if c == 't' {
      c := '\t';
    } else if c == 'c' {
      if stream.seek + 2 >= |stream.text| { return false, c; }
      var first := stream.ReadChar();
      var second := stream.ReadChar();
      if DigitValue(first) == 16 || DigitValue(second) == 16 { return false, c; }
      c := (16 * DigitValue(first) + DigitValue(second)) as char;
    } else if c != '\\' && c != '"' {
      ok := false;
    }
  }

  function Prefixed(data: string, r: Read<string>): Read<string> {
    match r
    case Ok(more, rest) => Ok(data + more, rest)
    case Error => Error
  }

  lemma PrefixedMoves(data: string, s: string, c: char, rest: string)
    requires s != "" && s[0] != '"' && StringChar(s) == Ok(c, rest)
    ensures Prefixed(data, ReadString(s)) == Prefixed(data + [c], ReadString(rest))
  {
    match ReadString(rest)
    case Ok(more, _) => assert data + ([c] + more) == data + [c] + more;
    case Error =>
  }

  lemma PrefixedEmpty(r: Read<string>)
    ensures Prefixed("", r) == r
  {
    if r.Ok? { assert "" + r.value == r.value; }
  }

  method ReadStringFrom(stream: TextStream) returns (ok: bool, data: string)
    requires stream.Valid()
    modifies stream
    ensures stream.Valid() && Took(ok, data, stream.Ahead(), ReadString(old(stream.Ahead())))
  {
    data := "";
    PrefixedEmpty(ReadString(stream.Ahead()));
    while stream.seek < |stream.text|
      invariant stream.Valid() && Prefixed(data, ReadString(stream.Ahead())) == ReadString(old(stream.Ahead()))
      decreases |stream.text| - stream.seek
    {
      if stream.text[stream.seek] == '"' {
        var _ := stream.ReadChar();
        assert data + "" == data;
        return true, data;
      }
      ghost var s := stream.Ahead();
      var c;
      ok, c := ReadStringChar(stream);
      if !ok { return; }
      PrefixedMoves(data, s, c, stream.Ahead());
      data := data + [c];
    }
    ok := false;
  }

  /** Reader macros, up to the first other token. */
  method ReadMacros(first: string, stream: TextStream, ghost expectClose: bool, ghost p: Partial)
      returns (ok: bool, tok: string, stack: seq<string>)
    requires stream.Valid() && first != ""
    modifies stream
    ensures stream.Valid() && stream.seek >= old(stream.seek)
    ensures var r := Quoted(first, old(stream.Ahead()), [], expectClose, p);
            if ok then tok != "" && r == Entry(tok, stream.Ahead(), stack, expectClose, p) else r.Error?
  {
    tok, stack := first, [];
    while IsMacro(tok)
      invariant tok != "" && stream.Valid() && stream.seek >= old(stream.seek)
      invariant Quoted(tok, stream.Ahead(), stack, expectClose, p)
          == Quoted(first, old(stream.Ahead()), [], expectClose, p)
      decreases |stream.text| - stream.seek
    {
      if stream.seek == |stream.text| { return false, tok, stack; }
      stack := stack + [MacroName(tok)];
      tok := stream.GetNextToken();
    }
    ok := true;
  }

  /** From behind the open paren, or from the start of a whole text. */
  method ReadListFrom(stream: TextStream, expectClose: bool) returns (ok: bool, o: Object)
    requires stream.Valid()
    modifies stream
    ensures stream.Valid() && Took(ok, o, stream.Ahead(), ReadList(old(stream.Ahead()), expectClose))
    decreases |stream.text| - stream.seek, 1
  {
    hide ReadOne, Finish, IsMacro, IsDot, Wrap, SkipSpace;
    ghost var answer := ReadList(stream.Ahead(), expectClose);
    ghost var start := stream.seek;
    stream.SeekPastWhitespaceAndComments();
    var p := Partial([], false, false);
    var closed := false;
    o := Nil;
    while stream.seek < |stream.text|
      invariant stream.Valid() && start <= stream.seek
      invariant ListLoop(stream.Ahead(), expectClose, p) == answer
      decreases |stream.text| - stream.seek
    {
      var tok := stream.GetNextToken();
      var stack := [];
      if IsMacro(tok) {
        ok, tok, stack := ReadMacros(tok, stream, expectClose, p);
        if !ok { return; }
      } else if IsDot(tok) {
        if p.dot { return false, o; }
        stream.SeekPastWhitespaceAndComments();
        if stream.seek == |stream.text| { return false, o; }
        tok := stream.GetNextToken();
        p := p.(dot := true);
      }
      assert Entry(tok, stream.Ahead(), stack, expectClose, p) == answer;
      if tok[0] == ')' {
        closed := true;
        break;
      }
      ok, o := ReadObjectFrom(tok, stream);
      if !ok || p.ended { return false, o; }
      p := p.Add(Wrap(stack, o));
      stream.SeekPastWhitespaceAndComments();
    }
    var r := Finish(p, closed, expectClose, stream.Ahead());
    ok := r.Ok?;
    if ok { o := r.value; }
  }

  /** One object, from behind its first token. */
  method ReadObjectFrom(tok: string, stream: TextStream) returns (ok: bool, o: Object)
    requires stream.Valid() && tok != ""
    modifies stream
    ensures stream.Valid() && Took(ok, o, stream.Ahead(), ReadOne(tok, old(stream.Ahead())))
    decreases |stream.text| - stream.seek, 2
  {
    o := Nil;
    if tok[0] == '(' {
      ok, o := ReadListFrom(stream, true);
      return;
    }
    var number := TryNumber(tok);
    if number.Yes? { return true, number.o; }
    if number.Raise? { return false, o; }
    if tok[0] == '"' {
      var data;
      ok, data := ReadStringFrom(stream);
      o := Str(data);
    } else if |tok| >= 2 && tok[0] == '#' && tok[1] == '(' {
      ok, o := ReadArrayFrom(stream);
    } else if TryChar(tok).Yes? {
      ok, o := true, TryChar(tok).o;
    } else if SymbolStart(tok[0]) {
      ok, o := true, Sym(tok);
    } else {
      ok := false;
    }
  }

  method ReadArrayFrom(stream: TextStream) returns (ok: bool, o: Object)
    requires stream.Valid()
    modifies stream
    ensures stream.Valid() && Took(ok, o, stream.Ahead(), ArrayLoop(SkipSpace(old(stream.Ahead())), []))
    decreases |stream.text| - stream.seek, 1
  {
    ghost var answer := ArrayLoop(SkipSpace(stream.Ahead()), []);
    ghost var start := stream.seek;
    stream.SeekPastWhitespaceAndComments();
    var objs := [];
    o := Nil;
    while stream.seek < |stream.text|
      invariant stream.Valid() && start <= stream.seek
      invariant ArrayLoop(stream.Ahead(), objs) == answer
      decreases |stream.text| - stream.seek
    {
      var tok := stream.GetNextToken();
      if tok[0] == ')' { return true, Arr(objs); }
      ok, o := ReadObjectFrom(tok, stream);
      if !ok { return; }
      objs := objs + [o];
      stream.SeekPastWhitespaceAndComments();
    }
    ok := false;
  }

  /** `read_from_string`. */
  method ReadFromString(text: string) returns (ok: bool, o: Object)
    ensures ok == ReadText(text).Ok? && (ok ==> o == ReadText(text).value)
  {
    o := Nil;
    for i := 0 to |text|
      invariant AllSource(text[..i])
    {
      if !SourceChar(text[i]) { return false, o; }
    }
    assert text[..|text|] == text;
    var stream := new TextStream(text);
    stream.SeekPastWhitespaceAndComments();
    ok, o := ReadListFrom(stream, false);
    if ok { o := Pair(Sym("top-level"), o); }
  }

  // ---------------------------------------------------------------------------------------------
  // Binary constants
  // ---------------------------------------------------------------------------------------------

  lemma {:induction false} ValueGrows(s: string, i: nat)
    requires AllDigits(s, 2) && i <= |s|
    ensures Value(s[..i], 2) <= Value(s, 2)
  {
    if i < |s| {
      var init := s[..|s| - 1];
      ValueGrows(init, i);
      assert init[..i] == s[..i];
    } else {
      assert s[..i] == s;
    }
  }

  /** The source shifts bit by bit and looks at the top bit first; that rejects just what does not fit 64 bits. */
  method BinaryValue(digits: string) returns (ok: bool, v: nat)
    requires AllDigits(digits, 2)
    ensures ok == (Value(digits, 2) < 2 * S64_LIMIT) && (ok ==> v == Value(digits, 2))
  {
    v := 0;
    for i := 0 to |digits|
      invariant v == Value(digits[..i], 2) && v < 2 * S64_LIMIT
    {
      ValueGrows(digits, i + 1);
      ValueSnoc(digits[..i], digits[i], 2);
      assert digits[..i + 1] == digits[..i] + [digits[i]];
      if v >= S64_LIMIT { return false, v; }
      v := 2 * v;
      if digits[i] == '1' { v := v + 1; }
    }
    assert digits[..|digits|] == digits;
    ok := true;
  }

  // ---------------------------------------------------------------------------------------------
  // Symbols
  // ---------------------------------------------------------------------------------------------

  class SymbolObject {
    const name: string

    constructor (name: string)
      ensures this.name == name
    {
      this.name := name;
    }
  }

  /** Interning: one object for each name, so that comparing symbols as objects compares their names. */
  class SymbolTable {
    var table: map<string, SymbolObject>

    ghost predicate Valid()
      reads this
    {
      forall name <- table :: table[name].name == name
    }

    constructor ()
      ensures Valid() && table == map[]
    {
      table := map[];
    }

    method Intern(name: string) returns (s: SymbolObject)
      requires Valid()
      modifies this
      ensures Valid() && name in table && s == table[name] && s.name == name
      ensures forall n <- old(table) :: n in table && table[n] == old(table)[n]
      ensures name in old(table) ==> table == old(table)
    {
      if name !in table {
        s := new SymbolObject(name);
        table := table[name := s];
      } else {
        s := table[name];
      }
    }

    lemma SameNameSameObject(a: string, b: string)
      requires Valid() && a in table && b in table
      ensures table[a] == table[b] <==> a == b
    {
      assert table[a] == table[b] ==> table[a].name == table[b].name;
    }
  }
}

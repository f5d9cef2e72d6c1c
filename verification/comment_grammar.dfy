/**
 What counts as a comment, said without a state machine: a text is a row of single characters, strings and
 comments. `Strip` keeps the characters and the strings, and rejects exactly the texts that are no such row.
 */
module CommentGrammar {
  import opened Wrappers
  import opened StripComments

  datatype Piece =
    | Code(c: char)
    | Str(body: string)
    | Block(body: string)
    | Line(body: string)

  function PieceText(p: Piece): string {
    match p
    case Code(c) => [c]
    case Str(body) => "\"" + body + "\""
    case Block(body) => "/*" + body + "*/"
    case Line(body) => "//" + body
  }

  function PieceKept(p: Piece): string {
    if p.Code? || p.Str? then PieceText(p) else ""
  }

  /** A quote inside the body stands right behind a backslash, the closing one does not. */
  predicate StringBody(body: string) {
    (body != "" ==> body[0] != '"') &&
    (forall i :: 0 <= i < |body| - 1 && body[i + 1] == '"' ==> body[i] == '\\') &&
    (body == "" || body[|body| - 1] != '\\')
  }

  predicate BlockBody(body: string) {
    forall i :: 0 <= i < |body| - 1 && body[i] == '*' ==> body[i + 1] != '/'
  }

  predicate LineBody(body: string) {
    forall i :: 0 <= i < |body| ==> body[i] != '\n'
  }

  predicate PieceOk(p: Piece, after: string) {
    match p
    case Code(c) => c != '"' && !OpensBlock([c] + after) && !OpensLine([c] + after)
    case Str(body) => StringBody(body)
    case Block(body) => BlockBody(body)
    case Line(body) => LineBody(body) && (after == "" || after[0] == '\n')
  }

  function Text(ps: seq<Piece>): string {
    if ps == [] then "" else PieceText(ps[0]) + Text(ps[1..])
  }

  function Kept(ps: seq<Piece>): string {
    if ps == [] then "" else PieceKept(ps[0]) + Kept(ps[1..])
  }

  predicate RowOk(ps: seq<Piece>) {
    ps == [] || (PieceOk(ps[0], Text(ps[1..])) && RowOk(ps[1..]))
  }

  // ---------------------------------------------------------------------------------------------
  // Lengths of the pieces
  // ---------------------------------------------------------------------------------------------

  lemma {:induction false} BlockEnds(body: string, after: string)
    requires BlockBody(body)
    ensures BlockLength(body + "*/" + after) == Some(|body| + 2)
  {
    var s := body + "*/" + after;
    if body != "" {
      assert s[1..] == body[1..] + "*/" + after;
      assert s[0] == body[0] && s[1] == if |body| > 1 then body[1] else '*';
      BlockEnds(body[1..], after);
    }
  }

  lemma {:induction false} LineEnds(body: string, after: string)
    requires LineBody(body)
    requires after == "" || after[0] == '\n'
    ensures LineLength(body + after) == |body|
  {
    if body != "" {
      assert (body + after)[1..] == body[1..] + after;
      LineEnds(body[1..], after);
    } else {
      assert body + after == after;
    }
  }

  /** Inside a string: the quotes of `body` are escaped, counting `prev` as what comes before. */
  predicate Escaped(body: string, prev: char) {
    (body != "" && body[0] == '"' ==> prev == '\\') &&
    (forall i :: 0 <= i < |body| - 1 && body[i + 1] == '"' ==> body[i] == '\\') &&
    (if body == "" then prev else body[|body| - 1]) != '\\'
  }

  lemma {:induction false} StringEnds(body: string, prev: char, after: string)
    requires Escaped(body, prev)
    ensures StringLength(body + "\"" + after, prev) == Some(|body| + 1)
  {
    var s := body + "\"" + after;
    if body != "" {
      assert s[1..] == body[1..] + "\"" + after && s[0] == body[0];
      assert Escaped(body[1..], body[0]);
      StringEnds(body[1..], body[0], after);
      assert StringLength(s[1..], s[0]) == Some(|body|);
    }
  }

  lemma {:induction false} BlockFound(s: string)
    requires BlockLength(s).Some?
    ensures BlockBody(s[..BlockLength(s).value - 2])
  {
    if !(s[0] == '*' && s[1] == '/') {
      BlockFound(s[1..]);
      var n := BlockLength(s[1..]).value;
      assert s[..n - 1][1..] == s[1..][..n - 2];
      forall i | 0 <= i < n - 2 && s[i] == '*' ensures s[i + 1] != '/' {
        if i > 0 { assert s[1..][..n - 2][i - 1] == s[i]; }
      }
    }
  }

  lemma {:induction false} StringFound(s: string, prev: char)
    requires StringLength(s, prev).Some?
    ensures Escaped(s[..StringLength(s, prev).value - 1], prev)
  {
    if !(s[0] == '"' && prev != '\\') {
      StringFound(s[1..], s[0]);
      var n := StringLength(s[1..], s[0]).value;
      assert StringLength(s, prev) == Some(n + 1);
      var body := s[..n];
      assert body[1..] == s[1..][..n - 1] && body[0] == s[0];
      assert n > 1 ==> body[1..][n - 2] == body[n - 1];
      forall i | 0 <= i < n - 1 && body[i + 1] == '"' ensures body[i] == '\\' {
        if i > 0 { assert body[1..][i - 1] == body[i] && body[1..][i] == body[i + 1]; }
      }
    }
  }

  // ---------------------------------------------------------------------------------------------
  // Strip follows the grammar, and the grammar follows Strip
  // ---------------------------------------------------------------------------------------------

  lemma CodeIsStripped(c: char, after: string)
    requires PieceOk(Code(c), after)
    ensures Strip([c] + after) == Before([c], Strip(after))
  {
    var s := [c] + after;
    assert s[1..] == after && s[..1] == [c];
  }

  lemma StrIsStripped(body: string, after: string)
    requires StringBody(body)
    ensures Strip("\"" + body + "\"" + after) == Before("\"" + body + "\"", Strip(after))
  {
    var s, t := "\"" + body + "\"" + after, body + "\"" + after;
    assert s[1..] == t && s[0] == '"';
    assert Strip(s) == Before("\"", InString(t, '"'));
    StringEnds(body, '"', after);
    assert t[..|body| + 1] == body + "\"" && t[|body| + 1..] == after;
    BeforeBefore("\"", body + "\"", Strip(after));
    assert "\"" + (body + "\"") == "\"" + body + "\"";
  }

  lemma BlockIsStripped(body: string, after: string)
    requires BlockBody(body)
    ensures Strip("/*" + body + "*/" + after) == Strip(after)
  {
    var s, t := "/*" + body + "*/" + after, body + "*/" + after;
    assert s[0] == '/' && s[1] == '*' && s[2..] == t;
    BlockEnds(body, after);
    assert t[|body| + 2..] == after;
  }

  lemma LineIsStripped(body: string, after: string)
    requires LineBody(body)
    requires after == "" || after[0] == '\n'
    ensures Strip("//" + body + after) == Strip(after)
  {
    var s := "//" + body + after;
    assert s[0] == '/' && s[1] == '/' && s[2..] == body + after;
    LineEnds(body, after);
    assert (body + after)[|body|..] == after;
  }

  lemma PieceIsStripped(p: Piece, after: string)
    requires PieceOk(p, after)
    ensures Strip(PieceText(p) + after) == Before(PieceKept(p), Strip(after))
  {
    hide Strip, StringBody, BlockBody, LineBody, Before;
    match p {
      case Code(c) => CodeIsStripped(c, after);
      case Str(body) => StrIsStripped(body, after);
      case Block(body) => BlockIsStripped(body, after); NothingBefore(Strip(after));
      case Line(body) => LineIsStripped(body, after); NothingBefore(Strip(after));
    }
  }

  lemma {:induction false} RowIsStripped(ps: seq<Piece>)
    requires RowOk(ps)
    ensures Strip(Text(ps)) == Some(Kept(ps))
  {
    if ps != [] {
      RowIsStripped(ps[1..]);
      PieceIsStripped(ps[0], Text(ps[1..]));
    }
  }

  lemma BlockSpelled(s: string, t: string, body: string, after: string)
    requires s == "/*" + t && t == body + "*/" + after
    ensures s == PieceText(Block(body)) + after
  {
    assert "/*" + (body + "*/" + after) == "/*" + body + "*/" + after;
  }

  lemma FirstBlock(s: string) returns (body: string, after: string)
    requires OpensBlock(s) && Strip(s).Some?
    ensures s == PieceText(Block(body)) + after && BlockBody(body)
  {
    var t := s[2..];
    assert BlockLength(t).Some? by { assert Strip(s) == InBlock(t); }
    hide Strip, BlockLength, BlockBody;
    var n := BlockLength(t).value;
    body, after := t[..n - 2], t[n..];
    BlockFound(t);
    assert s == "/*" + t;
    assert t == t[..n - 2] + t[n - 2..n] + t[n..];
    assert t[n - 2..n] == "*/";
    BlockSpelled(s, t, body, after);
  }

  lemma FirstLine(s: string) returns (body: string, after: string)
    requires OpensLine(s)
    ensures s == PieceText(Line(body)) + after && PieceOk(Line(body), after)
  {
    var t := s[2..];
    body, after := t[..LineLength(t)], t[LineLength(t)..];
    assert s == "//" + t && t == body + after;
  }

  lemma StringSpelled(s: string, t: string, n: nat)
    requires s != "" && s[0] == '"' && t == s[1..]
    requires 1 <= n <= |t| && t[n - 1] == '"'
    ensures s == PieceText(Str(t[..n - 1])) + t[n..]
  {
    assert t == t[..n - 1] + ("\"" + t[n..]);
  }

  lemma FirstString(s: string) returns (body: string, after: string)
    requires s != "" && s[0] == '"' && Strip(s).Some?
    ensures s == PieceText(Str(body)) + after && StringBody(body)
  {
    var t := s[1..];
    assert StringLength(t, '"').Some? by { assert Strip(s) == Before("\"", InString(t, '"')); }
    hide Strip, StringLength;
    var n := StringLength(t, '"').value;
    body, after := t[..n - 1], t[n..];
    StringFound(t, '"');
    StringSpelled(s, t, n);
  }

  lemma FirstPiece(s: string) returns (p: Piece, after: string)
    requires s != "" && Strip(s).Some?
    ensures s == PieceText(p) + after && PieceOk(p, after) && |after| < |s|
    ensures Strip(s) == Before(PieceKept(p), Strip(after))
  {
    hide Strip, StringBody, BlockBody, LineBody, Before;
    if OpensBlock(s) {
      var body, rest := FirstBlock(s);
      p, after := Block(body), rest;
    } else if OpensLine(s) {
      var body, rest := FirstLine(s);
      p, after := Line(body), rest;
    } else if s[0] == '"' {
      var body, rest := FirstString(s);
      p, after := Str(body), rest;
    } else {
      p, after := Code(s[0]), s[1..];
      assert [s[0]] + after == s;
    }
    PieceIsStripped(p, after);
  }

  lemma {:induction false} StrippedIsRow(s: string) returns (ps: seq<Piece>)
    requires Strip(s).Some?
    ensures RowOk(ps) && Text(ps) == s && Kept(ps) == Strip(s).value
    decreases |s|
  {
    if s == "" {
      ps := [];
    } else {
      var p, after := FirstPiece(s);
      var rest := StrippedIsRow(after);
      ps := [p] + rest;
      assert ps[1..] == rest;
    }
  }

  lemma StripIsTheGrammar(s: string, o: string)
    ensures Strip(s) == Some(o) <==> exists ps :: RowOk(ps) && Text(ps) == s && Kept(ps) == o
  {
    if Strip(s) == Some(o) {
      var ps := StrippedIsRow(s);
    }
    forall ps | RowOk(ps) && Text(ps) == s && Kept(ps) == o ensures Strip(s) == Some(o) {
      RowIsStripped(ps);
    }
  }

  /** A text is rejected exactly when no row of pieces spells it. */
  lemma RejectedExactly(s: string)
    ensures Strip(s) == None <==> forall ps :: RowOk(ps) ==> Text(ps) != s
  {
    if Strip(s).Some? {
      var ps := StrippedIsRow(s);
    }
    forall ps | RowOk(ps) && Text(ps) == s ensures Strip(s).Some? {
      RowIsStripped(ps);
    }
  }

  // ---------------------------------------------------------------------------------------------
  // Nothing is left to strip
  // ---------------------------------------------------------------------------------------------

  function KeptPieces(ps: seq<Piece>): seq<Piece> {
    if ps == [] then []
    else if ps[0].Code? || ps[0].Str? then [ps[0]] + KeptPieces(ps[1..])
    else KeptPieces(ps[1..])
  }

  /** A slash is followed by what followed it before: no comment can stand right behind it. */
  lemma SlashStays(ps: seq<Piece>)
    requires RowOk(ps) && ps != [] && ps[0].Code?
    ensures PieceOk(ps[0], Kept(ps[1..]))
  {
    var rest := ps[1..];
    if ps[0].c == '/' && rest != [] && Kept(rest) != "" {
      var t := Text(rest);
      assert ([ps[0].c] + t)[1] == t[0];
      assert rest[0].Code? || rest[0].Str?;
      assert Kept(rest)[0] == t[0];
    }
  }

  lemma {:induction false} KeptIsRow(ps: seq<Piece>)
    requires RowOk(ps)
    ensures RowOk(KeptPieces(ps)) && Text(KeptPieces(ps)) == Kept(ps) && Kept(KeptPieces(ps)) == Kept(ps)
  {
    if ps != [] {
      KeptIsRow(ps[1..]);
      if ps[0].Code? { SlashStays(ps); }
      if ps[0].Code? || ps[0].Str? {
        assert KeptPieces(ps)[1..] == KeptPieces(ps[1..]);
      }
    }
  }

  lemma StrippingTwice(s: string)
    requires Strip(s).Some?
    ensures Strip(Strip(s).value) == Strip(s)
  {
    var ps := StrippedIsRow(s);
    KeptIsRow(ps);
    RowIsStripped(KeptPieces(ps));
  }

  // ---------------------------------------------------------------------------------------------
  // Strings as JSON has them
  // ---------------------------------------------------------------------------------------------

  /** In JSON a backslash escapes the character behind it, a backslash too, and a quote must be escaped. */
  predicate JsonBody(body: string)
    decreases |body|
  {
    body == "" ||
    if body[0] == '\\' then |body| >= 2 && JsonBody(body[2..]) else body[0] != '"' && JsonBody(body[1..])
  }

  predicate EndsInBackslash(body: string) { body != "" && body[|body| - 1] == '\\' }

  /** A row whose strings are JSON strings. */
  predicate JsonRowOk(ps: seq<Piece>) {
    ps == [] ||
    ((if ps[0].Str? then JsonBody(ps[0].body) else PieceOk(ps[0], Text(ps[1..]))) && JsonRowOk(ps[1..]))
  }

  lemma {:induction false} JsonQuotesEscaped(body: string)
    requires JsonBody(body)
    ensures forall i :: 0 <= i < |body| && body[i] == '"' ==> i > 0 && Behind(body, i) == '\\'
    decreases |body|
  {
    if body != "" {
      var n := if body[0] == '\\' then 2 else 1;
      var rest := body[n..];
      JsonQuotesEscaped(rest);
      forall i | 0 <= i < |body| && body[i] == '"' ensures i > 0 && Behind(body, i) == '\\' {
        if i >= n { assert rest[i - n] == '"' && Behind(rest, i - n) == Behind(body, i); }
      }
    }
  }

  /** The character in front of this one. */
  function Behind(s: string, i: nat): char
    requires i < |s|
  {
    if i > 0 then s[i - 1] else ' '
  }

  lemma JsonBodyExactly(body: string)
    requires JsonBody(body)
    ensures StringBody(body) <==> !EndsInBackslash(body)
  {
    JsonQuotesEscaped(body);
    forall i | 0 <= i < |body| - 1 && body[i + 1] == '"' ensures body[i] == '\\' {
      assert Behind(body, i + 1) == body[i];
    }
  }

  /**
   Comments in JSON with comments: what is stripped goes by the strings of the text exactly when none of them ends in
   an escaped backslash, and then the strings stay and the comments go.
   */
  lemma {:induction false} JsonRowExactly(ps: seq<Piece>)
    requires JsonRowOk(ps)
    ensures RowOk(ps) <==> forall k :: 0 <= k < |ps| && ps[k].Str? ==> !EndsInBackslash(ps[k].body)
    ensures RowOk(ps) ==> Strip(Text(ps)) == Some(Kept(ps))
  {
    hide StringBody, JsonBody;
    if ps != [] {
      JsonRowExactly(ps[1..]);
      if ps[0].Str? { JsonBodyExactly(ps[0].body); }
      assert forall k :: 1 <= k < |ps| ==> ps[k] == ps[1..][k - 1];
    }
    if RowOk(ps) { RowIsStripped(ps); }
  }

  /** The JSON text of one backslash is rejected. */
  lemma BackslashIsRejected()
    ensures JsonRowOk([Str("\\\\")]) && Text([Str("\\\\")]) == "\"\\\\\"" && Strip("\"\\\\\"") == None
  {
    var body, text := "\\\\", "\"\\\\\"";
    assert body[2..] == "" && JsonBody(body);
    assert [Str(body)][1..] == [] && text == "\"" + body + "\"";
    assert text[1..] == "\\\\\"" && text[1..][1..] == "\\\"";
    assert text[1..][1..][1..] == "\"" && text[1..][1..][1..][1..] == "";
    assert StringLength("\"", '\\') == None;
    assert StringLength("\\\"", '\\') == None;
    assert StringLength("\\\\\"", '"') == None;
  }
}

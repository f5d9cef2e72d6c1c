/**
 `strip_cpp_style_comments` of `json_util.cpp`: comments go, strings and everything else stay.
 The source runs a state machine over the characters; `Strip` takes the text apart piece by piece.
 */
module StripComments {
  import opened Wrappers

  // ---------------------------------------------------------------------------------------------
  // Piece by piece
  // ---------------------------------------------------------------------------------------------

  /** How long a block comment goes on, behind its opening, with its end; nothing if it does not end. */
  function BlockLength(s: string): (n: Option<nat>)
    ensures n.Some? ==> 2 <= n.value <= |s| && s[n.value - 2] == '*' && s[n.value - 1] == '/'
  {
    if |s| < 2 then None
    else if s[0] == '*' && s[1] == '/' then Some(2)
    else
      match BlockLength(s[1..])
      case None => None
      case Some(n) => Some(n + 1)
  }

  /** How long a line comment goes on, without the end of the line. */
  function LineLength(s: string): (n: nat)
    ensures n <= |s| && (n < |s| ==> s[n] == '\n') && forall i :: 0 <= i < n ==> s[i] != '\n'
  {
    if s == "" || s[0] == '\n' then 0 else 1 + LineLength(s[1..])
  }

  /** How long a string goes on, with its closing quote: the first quote not right behind a backslash. */
  function StringLength(s: string, prev: char): (n: Option<nat>)
    ensures n.Some? ==> 1 <= n.value <= |s| && s[n.value - 1] == '"'
  {
    if s == "" then None
    else if s[0] == '"' && prev != '\\' then Some(1)
    else
      match StringLength(s[1..], s[0])
      case None => None
      case Some(n) => Some(n + 1)
  }

  function Before(kept: string, rest: Option<string>): Option<string> {
    match rest
    case None => None
    case Some(more) => Some(kept + more)
  }

  predicate OpensBlock(s: string) { |s| >= 2 && s[0] == '/' && s[1] == '*' }

  predicate OpensLine(s: string) { |s| >= 2 && s[0] == '/' && s[1] == '/' }

  /** `None` when the text ends inside a block comment or a string. */
  function Strip(s: string): Option<string>
    decreases |s|, 0
  {
    if s == "" then Some("")
    else if OpensBlock(s) then InBlock(s[2..])
    else if OpensLine(s) then InLine(s[2..])
    else if s[0] == '"' then Before("\"", InString(s[1..], '"'))
    else Before(s[..1], Strip(s[1..]))
  }

  function InBlock(s: string): Option<string>
    decreases |s|, 1
  {
    if BlockLength(s).None? then None else Strip(s[BlockLength(s).value..])
  }

  function InLine(s: string): Option<string>
    decreases |s|, 1
  {
    Strip(s[LineLength(s)..])
  }

  function InString(s: string, prev: char): Option<string>
    decreases |s|, 1
  {
    if StringLength(s, prev).None? then None
    else Before(s[..StringLength(s, prev).value], Strip(s[StringLength(s, prev).value..]))
  }

  // ---------------------------------------------------------------------------------------------
  // Character by character
  // ---------------------------------------------------------------------------------------------

  datatype State = Normal | BlockComment | LineComment | InsideString

  function Resume(state: State, s: string, prev: char): Option<string> {
    match state
    case Normal => Strip(s)
    case BlockComment => InBlock(s)
    case LineComment => InLine(s)
    case InsideString => InString(s, prev)
  }

  lemma BeforeBefore(a: string, b: string, rest: Option<string>)
    ensures Before(a, Before(b, rest)) == Before(a + b, rest)
  {
    if rest.Some? { assert a + (b + rest.value) == a + b + rest.value; }
  }

  /** One more character of a comment or string. */
  lemma BlockStep(s: string)
    requires s != ""
    ensures InBlock(s) == if |s| >= 2 && s[0] == '*' && s[1] == '/' then Strip(s[2..]) else InBlock(s[1..])
  {
    if |s| >= 2
        && BlockLength(s[1..]).Some? { assert s[1..][BlockLength(s[1..]).value..]
              == s[BlockLength(s[1..]).value + 1..]; }
  }

  lemma LineStep(s: string)
    requires s != ""
    ensures InLine(s) == if s[0] == '\n' then Before("\n", Strip(s[1..])) else InLine(s[1..])
  {
    if s[0] == '\n' {
      assert s[0..] == s && s[..1] == "\n";
    } else {
      assert s[1..][LineLength(s[1..])..] == s[LineLength(s[1..]) + 1..];
    }
  }

  lemma StringStep(s: string, prev: char)
    requires s != ""
    ensures InString(s, prev)
        == Before(s[..1], if s[0] == '"' && prev != '\\' then Strip(s[1..]) else InString(s[1..], s[0]))
  {
    if !(s[0] == '"' && prev != '\\') && StringLength(s[1..], s[0]).Some? {
      var n := StringLength(s[1..], s[0]).value;
      assert s[1..][n..] == s[n + 1..] && s[..1] + s[1..][..n] == s[..n + 1];
      BeforeBefore(s[..1], s[1..][..n], Strip(s[n + 1..]));
    }
  }

  method StripCppStyleComments(input: string) returns (r: Option<string>)
    ensures r == Strip(input)
  {
    var output := "";
    var state := Normal;
    var i := 0;
    assert input[0..] == input;
    NothingBefore(Strip(input));
    while i < |input|
      invariant 0 <= i <= |input|
      invariant Before(output, Resume(state, input[i..], if i > 0 then input[i - 1] else '\0')) == Strip(input)
      decreases |input| - i
    {
      ghost var s := input[i..];
      var c := input[i];
      var next := if i < |input| - 1 then input[i + 1] else '\0';
      var prev := if i > 0 then input[i - 1] else '\0';
      assert s[1..] == input[i + 1..] && s[..1] == [c];
      var kept := "";
      match state {
        case Normal =>
          if c == '/' && next == '*' {
            state := BlockComment;
            i := i + 1;
          } else if c == '/' && next == '/' {
            state := LineComment;
            i := i + 1;
          } else if c == '"' {
            state := InsideString;
            kept := [c];
          } else {
            kept := [c];
          }
        case BlockComment =>
          BlockStep(s);
          if c == '*' && next == '/' {
            state := Normal;
            i := i + 1;
          }
        case LineComment =>
          LineStep(s);
          if c == '\n' {
            state := Normal;
            kept := [c];
          }
        case InsideString =>
          StringStep(s, prev);
          if c == '"' && prev != '\\' { state := Normal; }
          kept := [c];
      }
      i := i + 1;
      NothingBefore(Resume(state, input[i..], input[i - 1]));
      BeforeBefore(output, kept, Resume(state, input[i..], input[i - 1]));
      output := output + kept;
    }
    if state == BlockComment || state == InsideString { return None; }
    r := Some(output);
    assert output + "" == output;
  }

  lemma NothingBefore(rest: Option<string>)
    ensures Before("", rest) == rest
  {
    if rest.Some? { assert "" + rest.value == rest.value; }
  }
}

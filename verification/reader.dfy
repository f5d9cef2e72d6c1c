/**
 The GOOS reader of `Reader.cpp`, as functions on the text that is still ahead. Each takes from
 the front of it and returns what is left. Exceptions and failed assertions are `Error`.
 */
module Reader {
  import opened GoosObjects

  datatype Read<+T> = Ok(value: T, rest: string) | Error

  // ---------------------------------------------------------------------------------------------
  // Spaces, comments and tokens
  // ---------------------------------------------------------------------------------------------

  /** What is left after the first `c`; nothing if there is none. */
  function After(s: string, c: char): (r: string)
    ensures |r| <= |s| && (s != "" ==> |r| < |s|)
  {
    if s == "" then "" else if s[0] == c then s[1..] else After(s[1..], c)
  }

  /** What is left after a block comment, from behind its opening. A `|` uses up the character it is followed by. */
  function AfterBlock(s: string): (r: string)
    ensures |r| <= |s|
    decreases |s|
  {
    if s == "" then ""
    else
      var t := After(s, '|');
      if t == "" then "" else if t[0] == '#' then t[1..] else AfterBlock(t[1..])
  }

  function SkipSpace(s: string): (r: string)
    ensures |r| <= |s|
    decreases |s|
  {
    if s == "" then s
    else if s[0] == ' ' || s[0] == '\t' || s[0] == '\n' then SkipSpace(s[1..])
    else if s[0] == ';' then SkipSpace(After(s, '\n'))
    else if s[0] == '#' && |s| > 1 && s[1] == '|' then SkipSpace(AfterBlock(s[2..]))
    else s
  }

  predicate EndsToken(c: char) { c == ' ' || c == '\n' || c == '\t' || c == ')' || c == ';' || c == '#' || c == '(' }

  /** How far a token that starts with an ordinary character runs on. */
  function RunLength(s: string): (n: nat)
    ensures n <= |s| && (n < |s| ==> EndsToken(s[n])) && forall i :: 0 <= i < n ==> !EndsToken(s[i])
  {
    if s == "" || EndsToken(s[0]) then 0 else 1 + RunLength(s[1..])
  }

  function TokenLength(s: string): (n: nat)
    requires s != ""
    ensures 1 <= n <= |s|
  {
    var first := s[0];
    if first == '(' || first == ')' || first == '"' || first == '\'' || first == '`' then 1
    else if first == ',' then if |s| > 1 && s[1] == '@' then 2 else 1
    else if first == '#' && |s| > 1 && s[1] == '(' then 2
    else 1 + RunLength(s[1..])
  }

  // ---------------------------------------------------------------------------------------------
  // Atoms
  // ---------------------------------------------------------------------------------------------

  /** `Raise` when the token is of the form but not a value of the type. */
  datatype Try = No | Yes(o: Object) | Raise

  predicate DecimalForm(tok: string) {
    tok != "" && (if tok[0] == '-' then |tok| > 1 && AllDigits(tok[1..], 10) else AllDigits(tok, 10))
  }

  function TryInteger(tok: string): Try {
    if !DecimalForm(tok) then No
    else
      var v := if tok[0] == '-' then -(Value(tok[1..], 10) as int) else Value(tok, 10);
      if IsS64(v) then Yes(Int(v)) else Raise
  }

  /** A 64-bit pattern read as a signed number. */
  function Wrap64(v: int): int
    requires 0 <= v < 2 * S64_LIMIT
  {
    if v < S64_LIMIT then v else v - 2 * S64_LIMIT
  }

  predicate RadixForm(tok: string, mark: char, base: nat) {
    |tok| >= 3 && tok[0] == '#' && tok[1] == mark && AllDigits(tok[2..], base)
  }

  function TryRadix(tok: string, mark: char, base: nat): Try {
    if !RadixForm(tok, mark, base) then No
    else if Value(tok[2..], base) >= 2 * S64_LIMIT then Raise
    else Yes(Int(Wrap64(Value(tok[2..], base))))
  }

  function Count(s: string, c: char): (n: nat)
    ensures n <= |s|
  {
    if s == "" then 0 else (if s[0] == c then 1 else 0) + Count(s[1..], c)
  }

  /** One point and at least one digit: what the number conversion takes in whole, after a sign. */
  predicate FloatBody(body: string) {
    (forall i :: 0 <= i < |body| ==> body[i] == '.' || '0' <= body[i] <= '9') && Count(body, '.') == 1 && |body| >= 2
  }

  predicate FloatForm(tok: string) { tok != "" && FloatBody(if tok[0] == '-' then tok[1..] else tok) }

  /** The value is left to the text, and no number is too large: the source makes those symbols. */
  function TryFloat(tok: string): Try { if FloatForm(tok) then Yes(Float(tok)) else No }

  predicate CharForm(tok: string) {
    |tok| >= 3 && tok[0] == '#' && tok[1] == '\\' &&
    ((|tok| == 3 && PrintableChar(tok[2]) && tok[2] != ' ') ||
     (|tok| == 4 && tok[2] == '\\' && (tok[3] == 'n' || tok[3] == 's' || tok[3] == 't')))
  }

  function TryChar(tok: string): Try {
    if !CharForm(tok) then No
    else if |tok| == 3 then Yes(Chr(tok[2]))
    else if tok[3] == 'n' then Yes(Chr('\n'))
    else if tok[3] == 's' then Yes(Chr(' '))
    else Yes(Chr('\t'))
  }

  predicate SymbolStart(c: char) {
    || 'a' <= c <= 'z' || 'A' <= c <= 'Z' || '0' <= c <= '9'
    || c == '!' || c == '$' || c == '%' || c == '&' || c == '*' || c == '+' || c == '-' || c == '/'
    || c == '\\' || c == '.' || c == ',' || c == '@' || c == '^' || c == '_' || c == ';' || c == ':'
    || c == '<' || c == '>' || c == '?' || c == '~' || c == '=' || c == '#'
  }

  /** Which number a token is; the first form that fits decides. */
  function TryNumber(tok: string): Try {
    if TryInteger(tok) != No then TryInteger(tok)
    else if TryRadix(tok, 'x', 16) != No then TryRadix(tok, 'x', 16)
    else if TryRadix(tok, 'b', 2) != No then TryRadix(tok, 'b', 2)
    else TryFloat(tok)
  }

  // ---------------------------------------------------------------------------------------------
  // Strings
  // ---------------------------------------------------------------------------------------------

  /** One character of a string, possibly written as an escape, and how long it is written. */
  function StringChar(s: string): Read<char>
    requires s != ""
  {
    if s[0] != '\\' then Ok(s[0], s[1..])
    else if |s| < 2 then Error
    else if s[1] == 'n' then Ok('\n', s[2..])
    else if s[1] == 't' then Ok('\t', s[2..])
    else if s[1] == '\\' || s[1] == '"' then Ok(s[1], s[2..])
    else if s[1] != 'c' || |s| < 5 || DigitValue(s[2]) == 16 || DigitValue(s[3]) == 16 then Error
    else Ok((16 * DigitValue(s[2]) + DigitValue(s[3])) as char, s[4..])
  }

  /** From behind the opening quote. */
  function ReadString(s: string): (r: Read<string>)
    ensures r.Ok? ==> |r.rest| < |s|
  {
    if s == "" then Error
    else if s[0] == '"' then Ok("", s[1..])
    else
      match StringChar(s)
      case Error => Error
      case Ok(c, s') =>
        match ReadString(s')
        case Error => Error
        case Ok(more, rest) => Ok([c] + more, rest)
  }

  // ---------------------------------------------------------------------------------------------
  // Lists and arrays
  // ---------------------------------------------------------------------------------------------

  /** Quote, quasiquote, unquote and splicing unquote. */
  predicate IsMacro(tok: string) {
    (|tok| == 1 && (tok[0] == '\'' || tok[0] == '`' || tok[0] == ',')) || (|tok| == 2 && tok[0] == ',' && tok[1] == '@')
  }

  function MacroName(tok: string): string
    requires IsMacro(tok)
  {
    if tok[0] == '\'' then "quote" else if tok[0] == '`' then "quasiquote" else if |tok| == 1 then "unquote"
        else "unquote-splicing"
  }

  predicate IsDot(tok: string) { |tok| == 1 && tok[0] == '.' }

  /** The object with the pending reader macros around it, the last one innermost. */
  function Wrap(stack: seq<string>, o: Object): Object {
    if stack == [] then o else Wrap(stack[..|stack| - 1], Pair(Sym(stack[|stack| - 1]), Pair(o, Nil)))
  }

  /** The objects as a list that ends in `tail`. */
  function ListOnto(objs: seq<Object>, tail: Object): Object {
    if objs == [] then tail else Pair(objs[0], ListOnto(objs[1..], tail))
  }

  /** A list under construction: what was read, whether a dot was, and whether something was after it. */
  datatype Partial = Partial(objs: seq<Object>, dot: bool, ended: bool) {
    function Add(o: Object): Partial { Partial(objs + [o], dot, dot) }
  }

  function Finish(p: Partial, closed: bool, expectClose: bool, rest: string): (r: Read<Object>)
    ensures r.Ok? ==> r.value.Pair? || r.value.Nil?
    ensures r.Ok? ==> r.rest == rest
  {
    if closed != expectClose || (p.dot && !p.ended) || (p.ended && |p.objs| < 2) then Error
    else if p.ended then Ok(ListOnto(p.objs[..|p.objs| - 1], p.objs[|p.objs| - 1]), rest)
    else Ok(ListOnto(p.objs, Nil), rest)
  }

  function ReadList(s: string, expectClose: bool): (r: Read<Object>)
    ensures r.Ok? ==> r.value.Pair? || r.value.Nil?
    ensures r.Ok? ==> |r.rest| <= |s|
    decreases |s|, 1
  {
    ListLoop(SkipSpace(s), expectClose, Partial([], false, false))
  }

  function ListLoop(s: string, expectClose: bool, p: Partial): (r: Read<Object>)
    ensures r.Ok? ==> r.value.Pair? || r.value.Nil?
    ensures r.Ok? ==> |r.rest| <= |s|
    decreases |s|, 0
  {
    if s == "" then Finish(p, false, expectClose, s)
    else
      var n := TokenLength(s);
      if IsMacro(s[..n]) then Quoted(s[..n], s[n..], [], expectClose, p)
      else if !IsDot(s[..n]) then Entry(s[..n], s[n..], [], expectClose, p)
      else
        var t := SkipSpace(s[n..]);
        if p.dot || t == "" then Error
        else Entry(t[..TokenLength(t)], t[TokenLength(t)..], [], expectClose, p.(dot := true))
  }

  /** Reader macros pile up until another token comes. */
  function Quoted(tok: string, s: string, stack: seq<string>, expectClose: bool, p: Partial): (r: Read<Object>)
    requires tok != ""
    ensures r.Ok? ==> r.value.Pair? || r.value.Nil?
    ensures r.Ok? ==> |r.rest| <= |s|
    decreases |s|, 4
  {
    if !IsMacro(tok) then Entry(tok, s, stack, expectClose, p)
    else if s == "" then Error
    else Quoted(s[..TokenLength(s)], s[TokenLength(s)..], stack + [MacroName(tok)], expectClose, p)
  }

  /** The token starts an entry of the list or ends it. */
  function Entry(tok: string, s: string, stack: seq<string>, expectClose: bool, p: Partial): (r: Read<Object>)
    requires tok != ""
    ensures r.Ok? ==> r.value.Pair? || r.value.Nil?
    ensures r.Ok? ==> |r.rest| <= |s|
    decreases |s|, 3
  {
    if tok[0] == ')' then Finish(p, true, expectClose, s)
    else
      match ReadOne(tok, s)
      case Error => Error
      case Ok(o, rest) => if p.ended then Error else ListLoop(SkipSpace(rest), expectClose, p.Add(Wrap(stack, o)))
  }

  /** One object, from its first token. */
  function ReadOne(tok: string, s: string): (r: Read<Object>)
    requires tok != ""
    ensures r.Ok? ==> |r.rest| <= |s|
    decreases |s|, 2
  {
    if tok[0] == '(' then ReadList(s, true)
    else
      match TryNumber(tok)
      case Yes(o) => Ok(o, s)
      case Raise => Error
      case No =>
        if tok[0] == '"' then
          match ReadString(s)
          case Error => Error
          case Ok(data, rest) => Ok(Str(data), rest)
        else if |tok| >= 2 && tok[0] == '#' && tok[1] == '(' then ArrayLoop(SkipSpace(s), [])
        else if TryChar(tok).Yes? then Ok(TryChar(tok).o, s)
        else if SymbolStart(tok[0]) then Ok(Sym(tok), s)
        else Error
  }

  /** Arrays know no reader macros and no dots. */
  function ArrayLoop(s: string, objs: seq<Object>): (r: Read<Object>)
    ensures r.Ok? ==> r.value.Arr?
    ensures r.Ok? ==> |r.rest| <= |s|
    decreases |s|, 0
  {
    if s == "" then Error
    else
      var n := TokenLength(s);
      if s[0] == ')' then Ok(Arr(objs), s[n..])
      else
        match ReadOne(s[..n], s[n..])
        case Error => Error
        case Ok(o, rest) => ArrayLoop(SkipSpace(rest), objs + [o])
  }

  // ---------------------------------------------------------------------------------------------
  // Whole texts
  // ---------------------------------------------------------------------------------------------

  predicate SourceChar(c: char) { ' ' <= c <= '~' || c == '\n' || c == '\t' || c == '\r' }

  predicate AllSource(text: string) { forall i :: 0 <= i < |text| ==> SourceChar(text[i]) }

  function ReadText(text: string): Read<Object> {
    if !AllSource(text) then Error
    else
      match ReadList(SkipSpace(text), false)
      case Error => Error
      case Ok(objs, rest) => Ok(Pair(Sym("top-level"), objs), rest)
  }
}

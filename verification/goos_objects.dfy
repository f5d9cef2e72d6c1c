/**
 GOOS objects and how they print: `Object.h` and `fixed_to_string` of `Object.cpp`.
 Symbols are named by their text; `TextStreams` shows that interning makes this sound.
 */
module GoosObjects {
  datatype Object =
    | Nil
    | Int(value: int)
    | Float(text: string)
    | Chr(c: char)
    | Sym(name: string)
    | Str(data: string)
    | Pair(car: Object, cdr: Object)
    | Arr(elems: seq<Object>)

  const S64_LIMIT := 0x8000_0000_0000_0000

  predicate IsS64(v: int) { -S64_LIMIT <= v < S64_LIMIT }

  // ---------------------------------------------------------------------------------------------
  // Numerals
  // ---------------------------------------------------------------------------------------------

  function Digit(d: int): char
    requires 0 <= d < 16
  {
    if d < 10 then '0' + d as char else 'a' + (d - 10) as char
  }

  /** The value of a digit in either case; 16 for other characters. */
  function DigitValue(c: char): (v: int)
    ensures 0 <= v <= 16
  {
    if '0' <= c <= '9' then (c - '0') as int
    else if 'a' <= c <= 'f' then (c - 'a') as int + 10
    else if 'A' <= c <= 'F' then (c - 'A') as int + 10
    else 16
  }

  function Numeral(n: nat, base: nat): string
    requires 2 <= base <= 16
    decreases n
  {
    if n < base then [Digit(n)] else Numeral(n / base, base) + [Digit(n % base)]
  }

  predicate AllDigits(s: string, base: nat) { forall i :: 0 <= i < |s| ==> DigitValue(s[i]) < base }

  /** The number that a string of digits denotes. */
  function Value(s: string, base: nat): nat {
    if s == "" then 0 else Value(s[..|s| - 1], base) * base + DigitValue(s[|s| - 1])
  }

  lemma DigitDenotes(d: int)
    requires 0 <= d < 16
    ensures DigitValue(Digit(d)) == d
  {
  }

  lemma ValueSnoc(s: string, c: char, base: nat)
    ensures Value(s + [c], base) == Value(s, base) * base + DigitValue(c)
  {
    assert (s + [c])[..|s|] == s;
  }

  lemma NumeralSnoc(n: nat, base: nat) returns (q: nat, r: nat)
    requires 2 <= base <= 16 && n >= base
    ensures n == q * base + r && q < n && r < base && Numeral(n, base) == Numeral(q, base) + [Digit(r)]
  {
    q, r := n / base, n % base;
  }

  lemma OneDigit(d: nat, base: nat)
    requires d < base <= 16
    ensures AllDigits([Digit(d)], base) && Value([Digit(d)], base) == d
  {
    DigitDenotes(d);
    ValueSnoc("", Digit(d), base);
    assert "" + [Digit(d)] == [Digit(d)] && Value("", base) == 0;
  }

  lemma {:induction false} NumeralDenotes(n: nat, base: nat)
    requires 2 <= base <= 16
    ensures Numeral(n, base) != "" && AllDigits(Numeral(n, base), base) && Value(Numeral(n, base), base) == n
    decreases n
  {
    if n < base {
      OneDigit(n, base);
    } else {
      var q, r := NumeralSnoc(n, base);
      NumeralDenotes(q, base);
      OneDigit(r, base);
      ValueSnoc(Numeral(q, base), Digit(r), base);
    }
  }

  // ---------------------------------------------------------------------------------------------
  // Printing
  // ---------------------------------------------------------------------------------------------

  function PrintInt(v: int): string {
    if v > 10000 then "#x" + Numeral(v, 16)
    else if v < 0 then "-" + Numeral(-v, 10)
    else Numeral(v, 10)
  }

  predicate PrintableChar(c: char) { ' ' <= c <= '~' }

  function PrintChar(c: char): string {
    if PrintableChar(c) && c != ' ' then "#\\" + [c]
    else if c == '\n' then "#\\\\n"
    else if c == ' ' then "#\\\\s"
    else if c == '\t' then "#\\\\t"
    else "#\\{" + Numeral(c as int, 10) + "}"
  }

  function Print(o: Object): string
    decreases o, 0
  {
    match o
    case Nil => "()"
    case Int(v) => PrintInt(v)
    case Float(text) => text
    case Chr(c) => PrintChar(c)
    case Sym(name) => name
    case Str(data) => "\"" + data + "\""
    case Pair(car, cdr) => "(" + (Print(car) + PrintRest(cdr))
    case Arr(elems) => "#(" + (PrintElems(elems) + ")")
  }

  /** The loop over the rest of a list. */
  function PrintRest(rest: Object): string
    decreases rest, 1
  {
    match rest
    case Nil => ")"
    case Pair(car, cdr) => " " + (Print(car) + PrintRest(cdr))
    case _ => " " + (". " + (Print(rest) + ")"))
  }

  function PrintElems(elems: seq<Object>): string
    decreases elems, 0
  {
    if elems == [] then ""
    else if |elems| == 1 then Print(elems[0])
    else Print(elems[0]) + (" " + PrintElems(elems[1..]))
  }
}

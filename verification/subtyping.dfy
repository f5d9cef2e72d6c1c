/**
 The subtype order on type specs and its join: `typecheck_base_types`, `tc`,
 `get_path_up_tree`, `lca_base` and `lowest_common_ancestor` of `TypeSystem.cpp`.
 */
module Subtyping {
  import opened TypeTable
  import opened Wrappers

  // ---------------------------------------------------------------------------------------------
  // Base types
  // ---------------------------------------------------------------------------------------------

  /** The parents above `d`, nearest first. */
  function Above(types: Types, d: TypeDef): seq<string>
    requires Grounded(types) && (d.HasParent() ==> d.parent in types)
    decreases if d.HasParent() then types[d.parent].serial + 1 else 0
  {
    if d.HasParent() then [d.parent] + Above(types, types[d.parent]) else []
  }

  /** A type, its parent and so on; the first parent is taken without asking whether there is one. */
  function PathUp(t: Table, name: string): Option<seq<string>>
    requires Grounded(t.types)
  {
    match Resolve(t, name)
    case None => None
    case Some(d) =>
      match Resolve(t, d.parent)
      case None => None
      case Some(p) => Some([name, d.parent] + Above(t.types, p))
  }

  method GetPathUpTree(t: Table, name: string) returns (path: Option<seq<string>>)
    requires Grounded(t.types)
    ensures path == PathUp(t, name)
  {
    if Resolve(t, name).None? { return None; }
    var parent := Resolve(t, name).value.parent;
    if Resolve(t, parent).None? { return None; }
    var d := Resolve(t, parent).value;
    assert d.HasParent() ==> d.parent in t.types;
    var steps := [name, parent];
    ghost var whole := steps + Above(t.types, d);
    while d.HasParent()
      invariant d.HasParent() ==> d.parent in t.types
      invariant steps + Above(t.types, d) == whole
      decreases if d.HasParent() then t.types[d.parent].serial + 1 else 0
    {
      assert steps + Above(t.types, d) == (steps + [d.parent]) + Above(t.types, t.types[d.parent]);
      steps := steps + [d.parent];
      d := t.types[d.parent];
    }
    assert steps + [] == steps;
    path := Some(steps);
  }

  /** The source walks up from the actual type. */
  method TypecheckBaseTypes(t: Table, expected: string, actual: string) returns (r: Option<bool>)
    requires Grounded(t.types)
    ensures r == CheckBase(t, expected, actual)
  {
    var e := Unit(expected);
    if Resolve(t, e).None? || Resolve(t, actual).None? { return None; }
    var d := Resolve(t, actual).value;
    if e == actual || e == d.name { return Some(true); }
    ghost var answer := IsSub(t.types, e, d.name);
    while d.HasParent()
      invariant d.name in t.types && t.types[d.name] == d && d.name != e
      invariant IsSub(t.types, e, d.name) == answer
      decreases d.serial
    {
      d := t.types[d.parent];
      if e == d.name { return Some(true); }
    }
    r := Some(false);
  }

  /** The last element of the longest common end of two paths, read from their far ends. */
  function LastCommon(xs: seq<string>, ys: seq<string>): Option<string> {
    if xs == [] || ys == [] || xs[|xs| - 1] != ys[|ys| - 1] then None
    else
      match LastCommon(xs[..|xs| - 1], ys[..|ys| - 1])
      case None => Some(xs[|xs| - 1])
      case deeper => deeper
  }

  method CommonFromTheEnd(xs: seq<string>, ys: seq<string>) returns (r: Option<string>)
    ensures r == LastCommon(xs, ys)
  {
    r := None;
    var i, j := |xs| - 1, |ys| - 1;
    assert xs[..i + 1] == xs && ys[..j + 1] == ys;
    while i >= 0 && j >= 0
      invariant -1 <= i < |xs| && -1 <= j < |ys|
      invariant LastCommon(xs, ys)
          == if LastCommon(xs[..i + 1], ys[..j + 1]).Some? then LastCommon(xs[..i + 1], ys[..j + 1]) else r
    {
      assert xs[..i + 1][..i] == xs[..i] && ys[..j + 1][..j] == ys[..j];
      if xs[i] != ys[j] { return; }
      r := Some(xs[i]);
      i, j := i - 1, j - 1;
    }
  }

  /** `None` stands for a failed lookup or assertion. */
  function LcaBase(t: Table, a: string, b: string): Option<string>
    requires Grounded(t.types)
  {
    if a == b then Some(a)
    else if a == "none" || b == "none" then Some("none")
    else
      var (up, vp) := (PathUp(t, a), PathUp(t, b));
      if up.None? || vp.None? then None else LastCommon(up.value, vp.value)
  }

  const OUTSIDERS := {"none", "_type_", "_varargs_", "meters", "degrees", "seconds"}

  /** A fully defined type below `object`, with no unit type among its ancestors. */
  ghost predicate PlainName(t: Table, name: string)
    requires Grounded(t.types)
    decreases if name in t.types then t.types[name].serial else 0
  {
    && name in t.types && name !in OUTSIDERS
    && if name == "object" then t.types[name].parent == "object"
          else t.types[name].HasParent() && PlainName(t, t.types[name].parent)
  }

  function Chain(types: Types, name: string): seq<string>
    requires Grounded(types) && name in types
  {
    [name] + Above(types, types[name])
  }

  /** Ancestors of one type form a chain: seen from the root, the chain of each is the start of the other's. */
  lemma {:induction false} AncestorChain(types: Types, anc: string, name: string)
    requires Grounded(types) && name in types && IsSub(types, anc, name)
    ensures anc in types
    ensures var (xs, ys) := (Chain(types, anc), Chain(types, name));
            |xs| <= |ys| && forall n :: 0 <= n < |xs| ==> FromEnd(xs, n) == FromEnd(ys, n)
    decreases types[name].serial
  {
    if anc != name {
      AncestorChain(types, anc, types[name].parent);
      assert Chain(types, name) == [name] + Chain(types, types[name].parent);
    }
  }

  function FromEnd(xs: seq<string>, n: nat): string
    requires n < |xs|
  {
    xs[|xs| - 1 - n]
  }

  lemma {:induction false} ChainMember(types: Types, name: string, n: nat)
    requires Grounded(types) && name in types && n < |Chain(types, name)|
    ensures var c := FromEnd(Chain(types, name), n);
            IsSub(types, c, name) && c in types && |Chain(types, c)| == n + 1
    decreases types[name].serial
  {
    if n < |Chain(types, name)| - 1 {
      assert Chain(types, name) == [name] + Chain(types, types[name].parent);
      ChainMember(types, types[name].parent, n);
    }
  }

  /** Of two ancestors the one with the shorter chain is above the other. */
  lemma {:induction false} ShorterIsAbove(types: Types, u: string, c: string, name: string)
    requires Grounded(types) && name in types && IsSub(types, u, name) && IsSub(types, c, name)
    requires u in types && c in types && |Chain(types, u)| <= |Chain(types, c)|
    ensures IsSub(types, u, c)
    decreases types[name].serial
  {
    if c != name {
      AncestorChain(types, c, types[name].parent);
      ShorterIsAbove(types, u, c, types[name].parent);
    }
  }

  /** On plain names the paths are the chains, but for `object`, which is its own parent. */
  lemma {:induction false} PlainChain(t: Table, name: string)
    requires Grounded(t.types) && PlainName(t, name)
    ensures var chain := Chain(t.types, name);
            chain[|chain| - 1] == "object"
                && PathUp(t, name) == Some(if name == "object" then ["object", "object"] else chain)
    ensures "object" in t.types
    decreases t.types[name].serial
  {
    if name != "object" {
      var p := t.types[name].parent;
      PlainChain(t, p);
      assert [name, p] + Above(t.types, t.types[p]) == Chain(t.types, name);
    } else {
      assert ["object", "object"] + [] == ["object", "object"];
    }
  }

  lemma {:induction false} AncestorIsPlain(t: Table, anc: string, name: string)
    requires Grounded(t.types) && PlainName(t, name) && IsSub(t.types, anc, name)
    ensures PlainName(t, anc)
    decreases t.types[name].serial
  {
    if anc != name { AncestorIsPlain(t, anc, t.types[name].parent); }
  }

  /** How many elements two sequences share, counted from their ends. */
  function CommonEnd(xs: seq<string>, ys: seq<string>): (k: nat)
    ensures k <= |xs| && k <= |ys| && forall n :: 0 <= n < k ==> FromEnd(xs, n) == FromEnd(ys, n)
    ensures k < |xs| && k < |ys| ==> FromEnd(xs, k) != FromEnd(ys, k)
  {
    if xs == [] || ys == [] || xs[|xs| - 1] != ys[|ys| - 1] then 0
    else
      var (xs', ys') := (xs[..|xs| - 1], ys[..|ys| - 1]);
      var k := CommonEnd(xs', ys');
      assert forall n :: 1 <= n < k + 1 ==>
          FromEnd(xs, n) == FromEnd(xs', n - 1) && FromEnd(ys, n) == FromEnd(ys', n - 1);
      assert k < |xs'| ==> FromEnd(xs, k + 1) == FromEnd(xs', k);
      assert k < |ys'| ==> FromEnd(ys, k + 1) == FromEnd(ys', k);
      k + 1
  }

  lemma {:induction false} LastCommonIs(xs: seq<string>, ys: seq<string>)
    ensures LastCommon(xs, ys) == if CommonEnd(xs, ys) == 0 then None else Some(FromEnd(xs, CommonEnd(xs, ys) - 1))
    ensures LastCommon(xs, ys) == LastCommon(ys, xs)
  {
    if xs != [] && ys != [] && xs[|xs| - 1] == ys[|ys| - 1] { LastCommonIs(xs[..|xs| - 1], ys[..|ys| - 1]); }
  }

  /** The last common element of two chains is above both, and below all that is above both. */
  lemma ChainsMeet(types: Types, a: string, b: string, u: string)
    requires Grounded(types) && a in types && b in types
    requires CommonEnd(Chain(types, a), Chain(types, b)) > 0
    ensures LastCommon(Chain(types, a), Chain(types, b)).Some?
    ensures var c := LastCommon(Chain(types, a), Chain(types, b)).value;
            c in types && IsSub(types, c, a) && IsSub(types, c, b)
                && (IsSub(types, u, a) && IsSub(types, u, b) ==> IsSub(types, u, c))
  {
    var xs, ys := Chain(types, a), Chain(types, b);
    LastCommonIs(xs, ys);
    var k := CommonEnd(xs, ys);
    ChainMember(types, a, k - 1);
    ChainMember(types, b, k - 1);
    if IsSub(types, u, a) && IsSub(types, u, b) {
      AncestorChain(types, u, a);
      AncestorChain(types, u, b);
      ShorterIsAbove(types, u, FromEnd(xs, k - 1), a);
    }
  }

  /** The join of two plain base types. */
  lemma LcaBaseIsJoin(t: Table, a: string, b: string, u: string)
    requires Grounded(t.types) && PlainName(t, a) && PlainName(t, b)
    ensures LcaBase(t, a, b).Some?
    ensures var c := LcaBase(t, a, b).value;
            && PlainName(t, c) && IsSub(t.types, c, a) && IsSub(t.types, c, b)
            && (IsSub(t.types, u, a) && IsSub(t.types, u, b) ==> IsSub(t.types, u, c))
  {
    if a != b {
      PlainChain(t, a);
      PlainChain(t, b);
      var xs, ys := Chain(t.types, a), Chain(t.types, b);
      ObjectIsOnce(t, a, b);
      assert FromEnd(xs, 0) == FromEnd(ys, 0);
      ChainsMeet(t.types, a, b, u);
    }
    AncestorIsPlain(t, LcaBase(t, a, b).value, a);
  }

  /** `object` twice at the start of its path does no harm. */
  lemma ObjectIsOnce(t: Table, a: string, b: string)
    requires Grounded(t.types) && PlainName(t, a) && PlainName(t, b) && a != b
    ensures LcaBase(t, a, b) == LastCommon(Chain(t.types, a), Chain(t.types, b))
  {
    PlainChain(t, a);
    PlainChain(t, b);
    assert "none" in OUTSIDERS;
    if a == "object" {
      NotObjectTwice(t, b);
      RepeatedRoot(Chain(t.types, b));
    } else if b == "object" {
      NotObjectTwice(t, a);
      RepeatedRoot(Chain(t.types, a));
    }
  }

  lemma RepeatedRoot(xs: seq<string>)
    requires |xs| >= 2 && xs[|xs| - 1] == "object" != xs[|xs| - 2]
    ensures LastCommon(["object", "object"], xs) == LastCommon(["object"], xs) == Some("object")
    ensures LastCommon(xs, ["object", "object"]) == LastCommon(xs, ["object"]) == Some("object")
  {
    assert ["object", "object"][..1] == ["object"] && ["object"][..0] == [];
    assert xs[..|xs| - 1][|xs| - 2] != "object";
  }

  lemma {:induction false} NotObjectTwice(t: Table, name: string)
    requires Grounded(t.types) && PlainName(t, name) && name != "object"
    ensures |Chain(t.types, name)| >= 2 && Chain(t.types, name)[|Chain(t.types, name)| - 2] != "object"
    decreases t.types[name].serial
  {
    var p := t.types[name].parent;
    if p != "object" { NotObjectTwice(t, p); }
    assert Chain(t.types, name) == [name] + Chain(t.types, p);
  }

  // ---------------------------------------------------------------------------------------------
  // Type specs
  // ---------------------------------------------------------------------------------------------

  /** The type check, without tags. An unknown name throws when the check gets to it. */
  function Tc(t: Table, expected: TypeSpec, actual: TypeSpec): Option<bool>
    requires Grounded(t.types)
    decreases expected
  {
    match CheckBase(t, expected.base, actual.base)
    case None => None
    case Some(base) =>
      if |expected.args| != |actual.args| then Some(base && expected.args == [])
      else
        match TcArgs(t, expected.args, actual.args)
        case None => None
        case Some(rest) => Some(base && rest)
  }

  function TcArgs(t: Table, expected: seq<TypeSpec>, actual: seq<TypeSpec>): Option<bool>
    requires Grounded(t.types) && |expected| == |actual|
    decreases expected
  {
    if expected == [] then Some(true)
    else
      match Tc(t, expected[0], actual[0])
      case Some(true) => TcArgs(t, expected[1..], actual[1..])
      case other => other
  }

  /** `a` is accepted where `e` is expected. */
  predicate Accepts(t: Table, e: TypeSpec, a: TypeSpec)
    requires Grounded(t.types)
  {
    Tc(t, e, a) == Some(true)
  }

  /** Functions with any number of arguments join to a bare `function`. */
  predicate Variadic(a: TypeSpec, b: TypeSpec) {
    |a.args| == 2 && |b.args| == 2 && (a.args[0] == Simple("_varargs_") || b.args[0] == Simple("_varargs_"))
  }

  function Lca(t: Table, a: TypeSpec, b: TypeSpec): Option<TypeSpec>
    requires Grounded(t.types)
    decreases a
  {
    match LcaBase(t, a.base, b.base)
    case None => None
    case Some(base) =>
      if base !in t.types && base !in t.forward then None
      else if base == "function" && Variadic(a, b) then Some(Simple(base))
      else if a.args == [] || |a.args| != |b.args| then Some(Simple(base))
      else
        match LcaArgs(t, a.args, b.args)
        case None => None
        case Some(args) => Some(TypeSpec(base, args))
  }

  function LcaArgs(t: Table, xs: seq<TypeSpec>, ys: seq<TypeSpec>): (r: Option<seq<TypeSpec>>)
    requires Grounded(t.types) && |xs| == |ys|
    ensures r.Some? ==> |r.value| == |xs|
    decreases xs
  {
    if xs == [] then Some([])
    else
      match Lca(t, xs[0], ys[0])
      case None => None
      case Some(z) =>
        match LcaArgs(t, xs[1..], ys[1..])
        case None => None
        case Some(zs) => Some([z] + zs)
  }

  /** Every name in the spec is plain. */
  ghost predicate Plain(t: Table, s: TypeSpec)
    requires Grounded(t.types)
  {
    PlainName(t, s.base) && forall a <- s.args :: Plain(t, a)
  }

  ghost predicate PlainArgs(t: Table, args: seq<TypeSpec>)
    requires Grounded(t.types)
  {
    forall i :: 0 <= i < |args| ==> Plain(t, args[i])
  }

  lemma PlainHasArgs(t: Table, s: TypeSpec)
    requires Grounded(t.types) && Plain(t, s)
    ensures PlainArgs(t, s.args)
  {
  }

  lemma CheckBasePlain(t: Table, e: string, a: string)
    requires Grounded(t.types) && PlainName(t, a)
    ensures CheckBase(t, e, a) == Some(true) <==> IsSub(t.types, Unit(e), a)
    ensures IsSub(t.types, e, a) ==> Unit(e) == e && PlainName(t, e)
  {
    if IsSub(t.types, Unit(e), a) { SerialFalls(t.types, Unit(e), a); }
    if IsSub(t.types, e, a) { AncestorIsPlain(t, e, a); }
  }

  /** Plain names are below what accepts them, and that is an order. */
  lemma {:induction false} SubTransitive(types: Types, a: string, b: string, c: string)
    requires Grounded(types) && b in types && c in types && IsSub(types, a, b) && IsSub(types, b, c)
    ensures IsSub(types, a, c) && a in types && types[a].serial <= types[c].serial
    ensures a == c ==> b == c
    decreases types[c].serial
  {
    SerialFalls(types, a, b);
    SerialFalls(types, b, c);
    if b != c { SubTransitive(types, a, b, types[c].parent); }
  }

  lemma {:induction false} SerialFalls(types: Types, a: string, b: string)
    requires Grounded(types) && b in types && IsSub(types, a, b)
    ensures a in types && types[a].serial <= types[b].serial && (a != b ==> types[a].serial < types[b].serial)
    decreases types[b].serial
  {
    if a != b { SerialFalls(types, a, types[b].parent); }
  }

  lemma {:induction false} AcceptsArgs(t: Table, es: seq<TypeSpec>, xs: seq<TypeSpec>)
    requires Grounded(t.types) && |es| == |xs|
    ensures TcArgs(t, es, xs) == Some(true) <==> forall i :: 0 <= i < |es| ==> Accepts(t, es[i], xs[i])
  {
    if es != [] {
      AcceptsArgs(t, es[1..], xs[1..]);
      if Accepts(t, es[0], xs[0]) && (forall i :: 0 <= i < |es[1..]| ==> Accepts(t, es[1..][i], xs[1..][i])) {
        forall i | 0 <= i < |es| ensures Accepts(t, es[i], xs[i]) {
          if i > 0 { assert Accepts(t, es[1..][i - 1], xs[1..][i - 1]); }
        }
      }
      if forall i :: 0 <= i < |es| ==> Accepts(t, es[i], xs[i]) {
        forall i | 0 <= i < |es[1..]|
          ensures Accepts(t, es[1..][i], xs[1..][i]) { assert Accepts(t, es[i + 1], xs[i + 1]); }
      }
    }
  }

  /** What acceptance of a plain spec means. */
  lemma AcceptsIs(t: Table, e: TypeSpec, a: TypeSpec)
    requires Grounded(t.types) && Plain(t, a)
    ensures Accepts(t, e, a) <==>
              && IsSub(t.types, Unit(e.base), a.base)
              && (e.args == []
                  || (|e.args| == |a.args| && forall i :: 0 <= i < |e.args| ==> Accepts(t, e.args[i], a.args[i])))
  {
    CheckBasePlain(t, e.base, a.base);
    if |e.args| == |a.args| { AcceptsArgs(t, e.args, a.args); }
  }

  lemma {:induction false} AcceptsItself(t: Table, a: TypeSpec)
    requires Grounded(t.types) && Plain(t, a)
    ensures Accepts(t, a, a)
  {
    forall i | 0 <= i < |a.args| ensures Accepts(t, a.args[i], a.args[i]) { AcceptsItself(t, a.args[i]); }
    AcceptsIs(t, a, a);
    CheckBasePlain(t, a.base, a.base);
  }

  lemma {:induction false} AcceptsTransitive(t: Table, a: TypeSpec, b: TypeSpec, c: TypeSpec)
    requires Grounded(t.types) && Plain(t, b) && Plain(t, c) && Accepts(t, a, b) && Accepts(t, b, c)
    ensures Accepts(t, a, c)
  {
    AcceptsIs(t, a, b);
    AcceptsIs(t, b, c);
    CheckBasePlain(t, b.base, b.base);
    SubTransitive(t.types, Unit(a.base), b.base, c.base);
    if a.args != [] {
      forall i | 0 <= i < |a.args| ensures Accepts(t, a.args[i], c.args[i]) {
        AcceptsTransitive(t, a.args[i], b.args[i], c.args[i]);
      }
    }
    AcceptsIs(t, a, c);
  }

  lemma {:induction false} AcceptsAntisymmetric(t: Table, a: TypeSpec, b: TypeSpec)
    requires Grounded(t.types) && Plain(t, a) && Plain(t, b) && Accepts(t, a, b) && Accepts(t, b, a)
    ensures a == b
  {
    AcceptsIs(t, a, b);
    AcceptsIs(t, b, a);
    CheckBasePlain(t, a.base, a.base);
    CheckBasePlain(t, b.base, b.base);
    SerialFalls(t.types, a.base, b.base);
    SerialFalls(t.types, b.base, a.base);
    forall i | 0 <= i < |a.args| ensures a.args[i] == b.args[i] { AcceptsAntisymmetric(t, a.args[i], b.args[i]); }
    assert a.args == b.args;
  }

  // ---------------------------------------------------------------------------------------------
  // The join
  // ---------------------------------------------------------------------------------------------

  /** `c` is the least spec that accepts both. */
  ghost predicate IsJoin(t: Table, a: TypeSpec, b: TypeSpec, c: TypeSpec)
    requires Grounded(t.types)
  {
    Plain(t, c) && Accepts(t, c, a) && Accepts(t, c, b) && forall u :: Accepts(t, u, a) && Accepts(t, u, b) ==>
        Accepts(t, u, c)
  }

  /** The main theorem: on plain specs the lowest common ancestor is the join of the order. */
  lemma {:induction false} LcaIsJoin(t: Table, a: TypeSpec, b: TypeSpec)
    requires Grounded(t.types) && Plain(t, a) && Plain(t, b)
    ensures Lca(t, a, b).Some? && IsJoin(t, a, b, Lca(t, a, b).value)
    decreases a
  {
    LcaBaseIsJoin(t, a.base, b.base, a.base);
    var base := LcaBase(t, a.base, b.base).value;
    NotVariadic(t, a, b);
    if a.args == [] || |a.args| != |b.args| {
      JoinOf(t, a, b, base, []);
    } else {
      LcaArgsAreJoins(t, a.args, b.args);
      JoinOf(t, a, b, base, LcaArgs(t, a.args, b.args).value);
    }
  }

  lemma NotVariadic(t: Table, a: TypeSpec, b: TypeSpec)
    requires Grounded(t.types) && Plain(t, a) && Plain(t, b)
    ensures !Variadic(a, b)
  {
    PlainHasArgs(t, a);
    PlainHasArgs(t, b);
  }

  lemma {:induction false} LcaArgsAreJoins(t: Table, xs: seq<TypeSpec>, ys: seq<TypeSpec>)
    requires Grounded(t.types) && PlainArgs(t, xs) && PlainArgs(t, ys) && |xs| == |ys|
    ensures LcaArgs(t, xs, ys).Some?
    ensures forall i :: 0 <= i < |xs| ==> IsJoin(t, xs[i], ys[i], LcaArgs(t, xs, ys).value[i])
    decreases xs
  {
    hide IsJoin, Plain, Lca;
    if xs != [] {
      LcaIsJoin(t, xs[0], ys[0]);
      LcaArgsAreJoins(t, xs[1..], ys[1..]);
    }
  }

  /** A join of the bases with joins of the arguments, or with none where the arguments do not match. */
  lemma JoinOf(t: Table, a: TypeSpec, b: TypeSpec, base: string, args: seq<TypeSpec>)
    requires Grounded(t.types) && Plain(t, a) && Plain(t, b) && LcaBase(t, a.base, b.base) == Some(base)
    requires if a.args == [] || |a.args| != |b.args| then args == []
             else |args| == |a.args| && forall i :: 0 <= i < |args| ==> IsJoin(t, a.args[i], b.args[i], args[i])
    ensures IsJoin(t, a, b, TypeSpec(base, args))
  {
    var c := TypeSpec(base, args);
    LcaBaseIsJoin(t, a.base, b.base, base);
    CheckBasePlain(t, base, a.base);
    AcceptsIs(t, c, a);
    AcceptsIs(t, c, b);
    forall u | Accepts(t, u, a) && Accepts(t, u, b) ensures Accepts(t, u, c) {
      AcceptsIs(t, u, a);
      AcceptsIs(t, u, b);
      LcaBaseIsJoin(t, a.base, b.base, Unit(u.base));
      AcceptsIs(t, u, c);
    }
  }

  /** A join is unique, so any two ways to compute it agree. */
  lemma JoinIsUnique(t: Table, a: TypeSpec, b: TypeSpec, c: TypeSpec, d: TypeSpec)
    requires Grounded(t.types) && IsJoin(t, a, b, c) && IsJoin(t, a, b, d)
    ensures c == d
  {
    AcceptsAntisymmetric(t, c, d);
  }

  lemma LcaBaseCommutes(t: Table, a: string, b: string)
    requires Grounded(t.types)
    ensures LcaBase(t, a, b) == LcaBase(t, b, a)
  {
    var (xs, ys) := (PathUp(t, a), PathUp(t, b));
    if xs.Some? && ys.Some? { LastCommonIs(xs.value, ys.value); }
  }

  lemma {:induction false} LcaCommutes(t: Table, a: TypeSpec, b: TypeSpec)
    requires Grounded(t.types)
    ensures Lca(t, a, b) == Lca(t, b, a)
    decreases a
  {
    LcaBaseCommutes(t, a.base, b.base);
    if |a.args| == |b.args| { LcaArgsCommute(t, a.args, b.args); }
  }

  lemma {:induction false} LcaArgsCommute(t: Table, xs: seq<TypeSpec>, ys: seq<TypeSpec>)
    requires Grounded(t.types) && |xs| == |ys|
    ensures LcaArgs(t, xs, ys) == LcaArgs(t, ys, xs)
    decreases xs
  {
    if xs != [] {
      LcaCommutes(t, xs[0], ys[0]);
      LcaArgsCommute(t, xs[1..], ys[1..]);
    }
  }

  /** The least spec that accepts every one of a list. */
  ghost predicate IsJoinOf(t: Table, specs: seq<TypeSpec>, c: TypeSpec)
    requires Grounded(t.types)
  {
    && Plain(t, c) && (forall s <- specs :: Accepts(t, c, s))
    && forall u :: (forall s <- specs :: Accepts(t, u, s)) ==> Accepts(t, u, c)
  }

  /** The vector form folds from the left; it asserts that there is something to fold. */
  function LcaAll(t: Table, specs: seq<TypeSpec>): Option<TypeSpec>
    requires Grounded(t.types)
  {
    if specs == [] then None
    else if |specs| == 1 then Some(specs[0])
    else
      match LcaAll(t, specs[..|specs| - 1])
      case None => None
      case Some(c) => Lca(t, c, specs[|specs| - 1])
  }

  method LowestCommonAncestor(t: Table, specs: seq<TypeSpec>) returns (r: Option<TypeSpec>)
    requires Grounded(t.types)
    ensures r == LcaAll(t, specs)
  {
    if specs == [] { return None; }
    r := Some(specs[0]);
    var i := 1;
    assert specs[..1] == [specs[0]];
    while i < |specs|
      invariant 1 <= i <= |specs|
      invariant r == LcaAll(t, specs[..i])
    {
      assert specs[..i + 1][..i] == specs[..i];
      r := if r.None? then None else Lca(t, r.value, specs[i]);
      i := i + 1;
    }
    assert specs[..i] == specs;
  }

  lemma {:induction false} LcaAllIsJoin(t: Table, specs: seq<TypeSpec>)
    requires Grounded(t.types) && specs != [] && forall s <- specs :: Plain(t, s)
    ensures LcaAll(t, specs).Some? && IsJoinOf(t, specs, LcaAll(t, specs).value)
  {
    var last := specs[|specs| - 1];
    if |specs| == 1 {
      AcceptsItself(t, last);
      assert last in specs;
    } else {
      var front := specs[..|specs| - 1];
      LcaAllIsJoin(t, front);
      var c := LcaAll(t, front).value;
      LcaIsJoin(t, c, last);
      var r := Lca(t, c, last).value;
      forall s <- specs ensures Accepts(t, r, s) {
        if s in front { AcceptsTransitive(t, r, c, s); } else { assert s == last; }
      }
      forall u | forall s <- specs :: Accepts(t, u, s) ensures Accepts(t, u, r) {
        assert forall s <- front :: s in specs;
        assert last in specs;
        assert Accepts(t, u, c) && Accepts(t, u, last);
      }
    }
  }

  /** The result depends only on which specs are joined, not on their order or number. */
  lemma OrderDoesNotMatter(t: Table, xs: seq<TypeSpec>, ys: seq<TypeSpec>)
    requires Grounded(t.types) && xs != [] && ys != [] && (forall s <- xs :: Plain(t, s))
    requires forall s :: s in xs <==> s in ys
    ensures LcaAll(t, xs) == LcaAll(t, ys)
  {
    LcaAllIsJoin(t, xs);
    LcaAllIsJoin(t, ys);
    var c, d := LcaAll(t, xs).value, LcaAll(t, ys).value;
    assert Accepts(t, c, d) && Accepts(t, d, c);
    AcceptsAntisymmetric(t, c, d);
  }

  lemma LcaOfThree(t: Table, a: TypeSpec, b: TypeSpec, c: TypeSpec)
    requires Grounded(t.types)
    ensures LcaAll(t, [a, b, c]) == if Lca(t, a, b).None? then None else Lca(t, Lca(t, a, b).value, c)
  {
    assert [a, b, c][..2] == [a, b] && [a, b][..1] == [a];
    assert LcaAll(t, [a, b]) == Lca(t, a, b);
  }

  lemma LcaAssociates(t: Table, a: TypeSpec, b: TypeSpec, c: TypeSpec)
    requires Grounded(t.types) && Plain(t, a) && Plain(t, b) && Plain(t, c)
    ensures var ab, bc := Lca(t, a, b), Lca(t, b, c);
            ab.Some? && bc.Some? && Lca(t, ab.value, c) == Lca(t, a, bc.value)
  {
    LcaIsJoin(t, a, b);
    LcaIsJoin(t, b, c);
    var bc := Lca(t, b, c).value;
    LcaCommutes(t, a, bc);
    var xs, ys := [a, b, c], [b, c, a];
    LcaOfThree(t, a, b, c);
    LcaOfThree(t, b, c, a);
    OrderDoesNotMatter(t, xs, ys);
  }

  /** Somewhere in the spec a function takes any number of arguments. */
  predicate HasVariadic(a: TypeSpec) {
    (a.base == "function" && Variadic(a, a)) || AnyVariadic(a.args)
  }

  predicate AnyVariadic(args: seq<TypeSpec>) { args != [] && (HasVariadic(args[0]) || AnyVariadic(args[1..])) }

  ghost predicate AllNamesKnown(t: Table, a: TypeSpec) {
    (a.base in t.types || a.base in t.forward) && forall i :: 0 <= i < |a.args| ==> AllNamesKnown(t, a.args[i])
  }

  /** A spec joined with itself comes back unless it holds a variadic function, which loses its arguments. */
  lemma {:induction false} LcaIsIdempotent(t: Table, a: TypeSpec)
    requires Grounded(t.types) && AllNamesKnown(t, a)
    ensures Lca(t, a, a).Some?
    ensures Lca(t, a, a) == Some(a) <==> !HasVariadic(a)
    decreases a
  {
    if !(a.base == "function" && Variadic(a, a)) { LcaArgsIdempotent(t, a.args); }
  }

  lemma {:induction false} LcaArgsIdempotent(t: Table, xs: seq<TypeSpec>)
    requires Grounded(t.types) && forall i :: 0 <= i < |xs| ==> AllNamesKnown(t, xs[i])
    ensures LcaArgs(t, xs, xs).Some?
    ensures LcaArgs(t, xs, xs) == Some(xs) <==> !AnyVariadic(xs)
    decreases xs
  {
    if xs != [] {
      LcaIsIdempotent(t, xs[0]);
      LcaArgsIdempotent(t, xs[1..]);
      var zs := LcaArgs(t, xs, xs).value;
      assert zs[0] == Lca(t, xs[0], xs[0]).value && zs[1..] == LcaArgs(t, xs[1..], xs[1..]).value;
      assert zs == xs <==> zs[0] == xs[0] && zs[1..] == xs[1..] by {
        assert zs == [zs[0]] + zs[1..] && xs == [xs[0]] + xs[1..];
      }
    }
  }
}

/**
 What a field path means going forward: where the named fields and indices lead, as
 `lookup_field_info` and `get_deref_info` define it one step at a time.
 */
module FieldPaths {
  import opened TypeTable
  import opened Wrappers

  datatype Token = FieldTok(name: string) | ConstIdx(idx: int) | VarIdx

  /**
   Where a path has got to. `Ref` holds a reference value, `Mem` a memory cell still to be
   loaded. `at` counts bytes from the starting reference value; `scale` is the stride of the
   variable index passed on the way, 0 if none; `bound` is the length of a fixed-size array.
   */
  datatype Place =
    | Ref(spec: TypeSpec, at: int, scale: int, bound: Option<int>)
    | Mem(spec: TypeSpec, at: int, scale: int)

  /** How indexing moves: the element stride, where element 0 sits, and whether elements are loaded. */
  datatype Indexing = Indexing(stride: int, first: int, loads: bool)

  function ElementAccess(t: Table, spec: TypeSpec): (r: Option<Indexing>)
    requires Grounded(t.types)
    ensures r.Some? ==> spec.HasSingleArg()
  {
    if !spec.HasSingleArg() then None
    else if spec.base == "array" then
      match GetDerefInfo(t, PointerTo(spec.args[0]))
      case Some(di) => if di.canDeref then Some(Indexing(di.stride, ARRAY_DATA_OFFSET, true)) else None
      case None => None
    else
      match GetDerefInfo(t, spec)
      case Some(di) => if di.canDeref then Some(Indexing(di.stride, 0, di.memDeref)) else None
      case None => None
  }

  function Indexed(p: Place, how: Indexing, idx: int, scale: int): Place
    requires p.Ref? && p.spec.HasSingleArg()
  {
    var at := p.at + how.first + idx * how.stride;
    if how.loads then Mem(p.spec.args[0], at, scale) else Ref(p.spec.args[0], at, scale, None)
  }

  function StepField(t: Table, p: Place, name: string): Option<Place>
    requires Grounded(t.types) && p.Ref?
  {
    if p.spec.base == "array" && p.spec.HasSingleArg() && name == "data" then
      Some(Ref(PointerTo(p.spec.args[0]), p.at + ARRAY_DATA_OFFSET, p.scale, None))
    else
      match GetFieldInfo(t, p.spec.base, name)
      case None => None
      case Some(info) =>
        var f := info.field;
        var start := p.at - t.types[p.spec.base].BoxOffset() + f.offset;
        if info.needsDeref then Some(Mem(info.spec, start, p.scale))
        else if !f.isInline then Some(Ref(info.spec, start, p.scale, ArrayBound(f)))
        else if f.spec.base in t.types && !t.types[f.spec.base].kind.NullKind? then
          Some(Ref(info.spec, start + t.types[f.spec.base].BoxOffset(), p.scale, ArrayBound(f)))
        else None
  }

  function ArrayBound(f: Field): Option<int> { if f.isArray && !f.dynamic then Some(f.arraySize) else None }

  /** A constant index must be inside a fixed-size array; a path takes one variable index at most. */
  function Step(t: Table, p: Place, tok: Token): Option<Place>
    requires Grounded(t.types)
  {
    if p.Mem? then None
    else
      match tok
      case FieldTok(name) => StepField(t, p, name)
      case ConstIdx(i) =>
        if p.bound.Some? && !(0 <= i < p.bound.value) then None
        else
          (match ElementAccess(t, p.spec)
           case None => None
           case Some(how) => Some(Indexed(p, how, i, p.scale)))
      case VarIdx =>
        if p.scale != 0 then None
        else
          match ElementAccess(t, p.spec)
          case None => None
          case Some(how) => Some(Indexed(p, how, 0, how.stride))
  }

  function Replay(t: Table, p: Place, path: seq<Token>): Option<Place>
    requires Grounded(t.types)
    decreases |path|
  {
    if path == [] then Some(p)
    else
      match Step(t, p, path[0])
      case None => None
      case Some(q) => Replay(t, q, path[1..])
  }

  lemma {:induction false} ReplaySnoc(t: Table, p: Place, path: seq<Token>, tok: Token)
    requires Grounded(t.types)
    ensures Replay(t, p, path + [tok]) ==
            match Replay(t, p, path) case None => None case Some(q) => Step(t, q, tok)
    decreases |path|
  {
    if path == [] {
      assert path + [tok] == [tok];
    } else {
      assert (path + [tok])[1..] == path[1..] + [tok];
      match Step(t, p, path[0])
      case None =>
      case Some(q) => ReplaySnoc(t, q, path[1..], tok);
    }
  }

  /** The path from an object's reference. */
  function From(spec: TypeSpec): Place { Ref(spec, 0, 0, None) }
}

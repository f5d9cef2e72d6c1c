/**
 The reverse field lookup of `TypeFieldLookup.cpp`: from an offset, a stride and a load, all
 field paths that reach that location.

 `Search` is the recursion as a function of the hits found so far. Its `fuel` bounds the depth
 of the recursion, which the source does not bound; `OutOfFuel` is told apart from the
 exceptions and assertion failures (`Failed`), so both termination and divergence can be stated.
 */
module ReverseLookup {
  import opened Arithmetic
  import opened TypeTable
  import opened Wrappers
  import opened FieldPaths

  datatype DerefKind = DerefKind(isStore: bool, size: int, signExtend: bool)

  datatype Input = Input(deref: Option<DerefKind>, offset: int, stride: int, base: TypeSpec)

  /** One way to reach the location; `addrOf` when the hit is the address of what the path names. */
  datatype Hit = Hit(addrOf: bool, spec: TypeSpec, tokens: seq<Token>)

  datatype Outcome = Done(hits: seq<Hit>) | Failed | OutOfFuel

  predicate DerefMatches(expected: DerefInfo, actual: DerefKind, isInteger: bool, isBasic: bool) {
    if actual.isStore || actual.size >= 8 || !isInteger then expected.loadSize == actual.size
    else if isBasic then expected.loadSize == actual.size
    else expected.loadSize == actual.size && expected.signExtend == actual.signExtend
  }

  /** Dereferencing a pointer to `spec`, and whether `spec` is an integer or a basic. */
  datatype CellInfo = CellInfo(di: DerefInfo, isInteger: bool, isBasic: bool) {
    predicate Matches(dk: DerefKind) { DerefMatches(di, dk, isInteger, isBasic) }
  }

  /** `None` if one of the checks throws. */
  function GetCellInfo(t: Table, spec: TypeSpec): Option<CellInfo>
    requires Grounded(t.types)
  {
    var di := GetDerefInfo(t, PointerTo(spec));
    var isInteger := CheckBase(t, "integer", spec.base);
    var isBasic := CheckBase(t, "basic", spec.base);
    if di.None? || isInteger.None? || isBasic.None? then None
    else Some(CellInfo(di.value, isInteger.value, isBasic.value))
  }

  /** A pointer or the elements of a boxed array: at most two hits, no recursion. */
  function ArrayHits(t: Table, input: Input, path: seq<Token>, boxed: bool): Outcome
    requires Grounded(t.types) && input.base.HasSingleArg()
  {
    var cell := GetCellInfo(t, input.base.args[0]);
    if cell.None? || !cell.value.di.memDeref then Failed
    else if input.stride == 0 && cell.value.di.stride <= 0 then Failed
    else
      Done(ElementHits(input, path, boxed, cell.value.di.stride,
                       input.deref.Some? && cell.value.Matches(input.deref.value)))
  }

  function ElementHits(input: Input, path: seq<Token>, boxed: bool, stride: int, matches: bool): seq<Hit>
    requires input.base.HasSingleArg() && (input.stride == 0 ==> stride > 0)
  {
    var elt := input.base.args[0];
    var first := if boxed then ARRAY_DATA_OFFSET else 0;
    if input.stride != 0 then
      if input.stride != stride || input.offset != first then []
      else if input.deref.None? then [Hit(true, PointerTo(elt), path + [VarIdx])]
      else if matches then [Hit(false, elt, path + [VarIdx])] else []
    else
      var idx := Quotient(input.offset - first, stride);
      if input.offset - first != idx * stride then []
      else if input.deref.Some? then if matches then [Hit(false, elt, path + [ConstIdx(idx)])] else []
      else
        [Hit(true, PointerTo(elt), path + [ConstIdx(idx)])] +
        if idx != 0 then []
        else if boxed then [Hit(false, PointerTo(elt), path + [FieldTok("data")])]
        else if path != [] then [Hit(false, input.base, path)]
        else []
  }

  function Search(t: Table, input: Input, path: seq<Token>, acc: seq<Hit>, max: int, fuel: nat): (o: Outcome)
    requires Grounded(t.types)
    ensures o.Done? ==> acc <= o.hits
    decreases fuel, 3, 0
  {
    if fuel == 0 then OutOfFuel
    else if input.base.base == "pointer" then SearchArray(t, input, path, acc, max, fuel, false)
    else if input.base.base == "inline-array" then SearchInlineArray(t, input, path, acc, max, fuel)
    else if input.base.base == "array"
        && input.base.HasSingleArg() then SearchArray(t, input, path, acc, max, fuel, true)
    else SearchOther(t, input, path, acc, max, fuel)
  }

  function SearchArray(t: Table, input: Input, path: seq<Token>, acc: seq<Hit>, max: int, fuel: nat,
                       boxed: bool): (o: Outcome)
    requires Grounded(t.types) && fuel > 0
    ensures o.Done? ==> acc <= o.hits
    decreases fuel, 2, 0
  {
    if |acc| >= max || !input.base.HasSingleArg() then Done(acc)
    else if boxed && input.offset < ARRAY_DATA_OFFSET then SearchOther(t, input, path, acc, max, fuel)
    else
      match ArrayHits(t, input, path, boxed)
      case Done(hits) => Done(acc + hits)
      case other => other
  }

  function SearchInlineArray(t: Table, input: Input, path: seq<Token>, acc: seq<Hit>, max: int, fuel: nat): (o: Outcome)
    requires Grounded(t.types) && fuel > 0
    ensures o.Done? ==> acc <= o.hits
    decreases fuel, 2, 0
  {
    if |acc| >= max then Done(acc)
    else
      var di := GetDerefInfo(t, input.base);
      if di.None? || !di.value.canDeref || di.value.memDeref then Failed
      else
        var elt, stride := di.value.result, di.value.stride;
        if input.stride != 0 && input.stride == stride && input.offset < stride then
          var acc' := acc + if input.offset == 0 && input.deref.None? then [Hit(false, elt, path + [VarIdx])] else [];
          if |acc'| >= max then Done(acc')
          else Search(t, Input(input.deref, input.offset, 0, elt), path + [VarIdx], acc', max, fuel - 1)
        else if stride <= 0 || elt.base !in t.types || t.types[elt.base].kind.NullKind? then Failed
        else
          var idx := Quotient(t.types[elt.base].BoxOffset() + input.offset, stride);
          var into := input.offset - idx * stride;
          var exact := into == 0 && input.deref.None?;
          var acc' := acc + if exact then [Hit(false, elt, path + [ConstIdx(idx)])] else [];
          if |acc'| >= max then Done(acc')
          else
            var acc'' := acc' + if exact && idx == 0 && path != [] then [Hit(false, input.base, path)] else [];
            if |acc''| >= max then Done(acc'')
            else Search(t, Input(input.deref, into, input.stride, elt), path + [ConstIdx(idx)], acc'', max, fuel - 1)
  }

  function SearchOther(t: Table, input: Input, path: seq<Token>, acc: seq<Hit>, max: int, fuel: nat): (o: Outcome)
    requires Grounded(t.types) && fuel > 0
    ensures o.Done? ==> acc <= o.hits
    decreases fuel, 1, 0
  {
    if input.base.base !in t.types then Failed
    else if !t.types[input.base.base].kind.StructKind? then Done(acc)
    else SearchFields(t, input, path, acc, max, fuel, 0)
  }

  /** The loop over the fields of a structure, from field `i` on. */
  function SearchFields(t: Table, input: Input, path: seq<Token>, acc: seq<Hit>, max: int, fuel: nat,
                        i: nat): (o: Outcome)
    requires Grounded(t.types) && fuel > 0
    requires input.base.base in t.types && t.types[input.base.base].kind.StructKind?
    requires i <= |t.types[input.base.base].kind.fields|
    ensures o.Done? ==> acc <= o.hits
    decreases fuel, 0, |t.types[input.base.base].kind.fields| - i
  {
    var fields := t.types[input.base.base].kind.fields;
    if i == |fields| then Done(acc)
    else if fields[i].skip then SearchFields(t, input, path, acc, max, fuel, i + 1)
    else if |acc| >= max then Done(acc)
    else
      match SearchField(t, input, path, acc, max, fuel, fields[i])
      case Done(acc') => SearchFields(t, input, path, acc', max, fuel, i + 1)
      case other => other
  }

  /** How many bytes the access looks at; an address counts as one. */
  function AccessSize(input: Input): int { if input.deref.Some? then input.deref.value.size else 1 }

  /** One round of that loop. */
  function SearchField(t: Table, input: Input, path: seq<Token>, acc: seq<Hit>, max: int, fuel: nat,
                       f: Field): (o: Outcome)
    requires Grounded(t.types) && fuel > 0
    requires input.base.base in t.types && t.types[input.base.base].kind.StructKind?
    ensures o.Done? ==> acc <= o.hits
    decreases fuel, 0, 0
  {
    var owner := t.types[input.base.base];
    var info := GetFieldInfo(t, owner.name, f.name);
    var into := input.offset + owner.BoxOffset() - f.offset;
    if info.None? then Failed
    else if into < 0 then Done(acc)
    else if SizeInType(t, f).None? then Failed
    else if into + AccessSize(input) > SizeInType(t, f).value && !f.dynamic then Done(acc)
    else if info.value.needsDeref then
      if into != 0 then Done(acc)
      else if input.deref.None? then
        Done(acc + if input.stride != 0 then [] else [Hit(true, PointerTo(info.value.spec), path + [FieldTok(f.name)])])
      else
        match GetCellInfo(t, info.value.spec)
        case None => Failed
        case Some(cell) => Done(acc + if !cell.Matches(input.deref.value)
                                || input.stride != 0 then []
                                      else [Hit(false, info.value.spec, path + [FieldTok(f.name)])])
    else if f.isInline && (f.spec.base !in t.types || t.types[f.spec.base].kind.NullKind?) then Failed
    else
      var expected := if f.isInline then t.types[f.spec.base].BoxOffset() else 0;
      if into == expected && input.deref.None? && input.stride == 0 then
        Done(acc + [Hit(false, info.value.spec, path + [FieldTok(f.name)])])
      else
        Search(t, Input(input.deref, into - expected, input.stride, info.value.spec), path + [FieldTok(f.name)], acc,
               max, fuel - 1)
  }
}

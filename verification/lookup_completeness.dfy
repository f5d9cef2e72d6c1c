/** Every load the table allows is found by the reverse lookup, unless the limit on hits cut it short. */
module LookupCompleteness {
  import opened Arithmetic
  import opened TypeTable
  import opened Wrappers
  import opened FieldPaths
  import opened ReverseLookup
  import opened LookupSoundness

  /**
   Fields fit in their types: `Deftypes` proves it of every table built by deftypes. A field
   placed by the user may start before its type does.
   */
  ghost predicate FieldsFit(t: Table) {
    && Searchable(t)
    && t.types["array"].kind.size <= ARRAY_DATA_OFFSET + BASIC_OFFSET
    && ("pointer" in t.types ==> !t.types["pointer"].kind.StructKind?)
    && ("inline-array" in t.types ==> !t.types["inline-array"].kind.StructKind?)
    && (forall n <- t.types :: t.types[n].kind.StructKind? ==>
          t.types[n].kind.size >= 0 && forall f <- t.types[n].kind.fields :: FieldFits(t, t.types[n], f))
  }

  predicate FieldFits(t: Table, owner: TypeDef, f: Field)
    requires owner.kind.StructKind?
  {
    EndsWithin(t, f, owner.kind.size) && (f.dynamic ==> f.isArray)
  }

  /** A path of visible fixed fields and constant indices from 0 up; the data of a boxed array counts as dynamic. */
  ghost predicate PlainStep(t: Table, p: Place, tok: Token)
    requires Grounded(t.types)
  {
    p.Ref? && Step(t, p, tok).Some?
    && match tok
       case FieldTok(name) =>
         GetFieldInfo(t, p.spec.base, name).Some?
         && (var f := GetFieldInfo(t, p.spec.base, name).value.field; !f.skip && !f.dynamic)
         && !(p.spec.base == "array" && p.spec.HasSingleArg() && name == "data")
       case ConstIdx(i) => i >= 0 && p.spec.base != "array"
       case VarIdx => false
  }

  ghost predicate Plain(t: Table, p: Place, rest: seq<Token>)
    requires Grounded(t.types)
    decreases |rest|
  {
    rest == [] || (PlainStep(t, p, rest[0]) && Plain(t, Step(t, p, rest[0]).value, rest[1..]))
  }

  function LoadBytes(t: Table, spec: TypeSpec): int {
    match Resolve(t, spec.base)
    case Some(d) => if d.kind.NullKind? then 0 else d.LoadSize()
    case None => 0
  }

  /** A plain path from `p` that ends in a memory cell `rel` bytes from `p`. */
  ghost predicate LoadPath(t: Table, p: Place, rest: seq<Token>, cell: TypeSpec, rel: int)
    requires Grounded(t.types)
  {
    Plain(t, p, rest) && Replay(t, p, rest) == Some(Mem(cell, p.at + rel, p.scale))
  }

  /** How far the reference of a value is from the start of its memory. */
  function Lead(t: Table, spec: TypeSpec): int {
    if spec.base == "inline-array" then ElementBox(t, spec)
    else if spec.base in t.types && t.types[spec.base].kind.StructKind? then t.types[spec.base].BoxOffset()
    else 0
  }

  /**
   After this step, the rest of the offset does not point before the memory of the field or element
   stepped into. In front of element 0 it may, as division rounds toward zero.
   */
  ghost predicate StepInOrder(t: Table, p: Place, tok: Token, q: Place, rel: int)
    requires Grounded(t.types)
  {
    || q.Mem?
    || 0 <= rel + Lead(t, q.spec)
    || (tok == ConstIdx(0) && ElementAccess(t, p.spec).Some?
        && -ElementAccess(t, p.spec).value.stride < rel + Lead(t, q.spec))
  }

  /** The same for every step of a path to a place `rel` bytes from `p`. */
  ghost predicate InOrder(t: Table, p: Place, rest: seq<Token>, rel: int)
    requires Grounded(t.types)
    decreases |rest|
  {
    rest == [] ||
    match Step(t, p, rest[0])
    case None => true
    case Some(q) => StepInOrder(t, p, rest[0], q, rel - (q.at - p.at)) && InOrder(t, q, rest[1..], rel - (q.at - p.at))
  }

  /** A load path ends before the end of the structure, or of the array element, that it starts in. */
  ghost predicate EndsInside(t: Table, p: Place, rest: seq<Token>, rel: int, bytes: int)
    requires Grounded(t.types)
  {
    p.Ref? && rest != [] &&
    if rest[0].FieldTok? then
      && p.spec.base in t.types && t.types[p.spec.base].kind.StructKind?
      && rel + t.types[p.spec.base].BoxOffset() + bytes <= t.types[p.spec.base].kind.size
    else
      && ElementAccess(t, p.spec).Some? && rest[0].ConstIdx? && Step(t, p, rest[0]).Some?
      && rel - (Step(t, p, rest[0]).value.at - p.at) + ElementBox(t, p.spec)
            + bytes <= ElementAccess(t, p.spec).value.stride
  }

  lemma CellSize(t: Table, f: Field)
    requires Searchable(t) && SizeInType(t, f).Some? && !f.isArray && !f.dynamic && !f.isInline
    ensures SizeInType(t, f).value == LoadBytes(t, f.spec)
  {
    var d := Resolve(t, f.spec.base).value;
    if d.kind.ValueKind? {
      assert Resolve(t, f.spec.base) == Some(t.types[d.name]);
      AlignSelf(d.kind.size);
    }
  }

  lemma LoadEnds(t: Table, q: Place, rest: seq<Token>, cell: TypeSpec, rel: int)
    requires Grounded(t.types) && q.Mem? && LoadPath(t, q, rest, cell, rel)
    ensures rest == [] && cell == q.spec && rel == 0
  {
  }

  /** The memory of a fixed reference field: a structure, or an array of known length. */
  lemma FieldRegion(t: Table, p: Place, name: string, q: Place)
    requires FieldsFit(t) && p.Ref? && PlainStep(t, p, FieldTok(name)) && Step(t, p, FieldTok(name)) == Some(q)
             && q.Ref?
    ensures var owner, f := t.types[p.spec.base], GetFieldInfo(t, p.spec.base, name).value.field;
            && f in owner.kind.fields && FieldFits(t, owner, f)
            && var start := p.at - owner.BoxOffset() + f.offset;
               if f.isArray then
                 && q.spec.base in ["pointer", "inline-array"] && q.spec.HasSingleArg() && q.bound == Some(f.arraySize)
                 && q.at == start + ElementBox(t, q.spec)
                 && (ElementAccess(t, q.spec).Some? ==>
                       SizeInType(t, f).value == f.arraySize * ElementAccess(t, q.spec).value.stride)
               else
                 && f.isInline && q.bound.None? && q.spec.base in t.types && t.types[q.spec.base].kind.StructKind?
                 && q.at == start + t.types[q.spec.base].BoxOffset()
                 && SizeInType(t, f).value == t.types[q.spec.base].kind.size
                 && q.spec == f.spec
  {
    var f := GetFieldInfo(t, p.spec.base, name).value.field;
    var d := Resolve(t, f.spec.base).value;
    if d.kind.ValueKind? {
      assert Resolve(t, f.spec.base) == Some(t.types[d.name]);
      AlignSelf(d.kind.size);
    }
  }

  /** Load paths end inside the memory of the place they start from. */
  lemma {:induction false} LoadsEndInside(t: Table, p: Place, rest: seq<Token>, cell: TypeSpec, rel: int)
    requires FieldsFit(t) && p.Ref? && LoadPath(t, p, rest, cell, rel)
    ensures EndsInside(t, p, rest, rel, LoadBytes(t, cell))
    decreases |rest|, 1
  {
    var q := Step(t, p, rest[0]).value;
    match rest[0]
    case VarIdx =>
    case FieldTok(name) =>
      var info := GetFieldInfo(t, p.spec.base, name).value;
      var owner := t.types[p.spec.base];
      assert FieldFits(t, owner, info.field);
      if info.needsDeref {
        LoadEnds(t, q, rest[1..], cell, rel - (q.at - p.at));
        CellSize(t, info.field);
      } else {
        FieldEnd(t, p, name, q, rest, cell, rel);
      }
    case ConstIdx(i) =>
      if p.spec.base == "inline-array" {
        ElementEnd(t, p, rest, cell, rel);
      } else {
        PointerElementEnd(t, p, i);
        LoadEnds(t, q, rest[1..], cell, rel - (q.at - p.at));
      }
  }

  lemma PointerElementEnd(t: Table, p: Place, i: int)
    requires FieldsFit(t) && p.Ref? && p.spec.base !in ["inline-array", "array"] && Step(t, p, ConstIdx(i)).Some?
    ensures ElementAccess(t, p.spec).Some? && ElementBox(t, p.spec) == 0
    ensures LoadBytes(t, p.spec.args[0]) == ElementAccess(t, p.spec).value.stride
    ensures Step(t, p, ConstIdx(i)).value.Mem? && Step(t, p, ConstIdx(i)).value.spec == p.spec.args[0]
    ensures Step(t, p, ConstIdx(i)).value.at == p.at + i * ElementAccess(t, p.spec).value.stride
  {
  }

  /** The first step of a load path in an inline array. */
  lemma ElementDeref(t: Table, p: Place, rest: seq<Token>, cell: TypeSpec, rel: int)
    requires FieldsFit(t) && p.Ref? && p.spec.base == "inline-array" && LoadPath(t, p, rest, cell, rel)
    ensures rest != [] && rest[0].ConstIdx? && rest[0].idx >= 0
    ensures GetDerefInfo(t, p.spec).Some? && GetDerefInfo(t, p.spec).value.canDeref
    ensures var di, i := GetDerefInfo(t, p.spec).value, rest[0].idx;
            var q := Ref(di.result, p.at + i * di.stride, p.scale, None);
            && !di.memDeref && p.spec == InlineArrayOf(di.result)
            && ElementAccess(t, p.spec) == Some(Indexing(di.stride, 0, false))
            && di.result.base in t.types && t.types[di.result.base].kind.StructKind?
            && t.types[di.result.base].kind.size <= di.stride
            && Step(t, p, rest[0]) == Some(q)
            && LoadPath(t, q, rest[1..], cell, rel - i * di.stride)
  {
    hide FieldFits, DistinctFields, Accepts, ElementBox;
    assert PlainStep(t, p, rest[0]);
    var di := GetDerefInfo(t, p.spec).value;
    var d := t.types[di.result.base];
    AlignUpIsLeast(d.kind.size, d.StrideAlignment(), 0);
  }

  lemma {:induction false} ElementEnd(t: Table, p: Place, rest: seq<Token>, cell: TypeSpec, rel: int)
    requires FieldsFit(t) && p.Ref? && p.spec.base == "inline-array" && LoadPath(t, p, rest, cell, rel)
    ensures EndsInside(t, p, rest, rel, LoadBytes(t, cell))
    decreases |rest|, 0
  {
    hide LoadPath, Plain, GetDerefInfo, FieldFits, DistinctFields;
    ElementDeref(t, p, rest, cell, rel);
    var di, i := GetDerefInfo(t, p.spec).value, rest[0].idx;
    var q := Ref(di.result, p.at + i * di.stride, p.scale, None);
    LoadPlain(t, q, rest[1..], cell, rel - i * di.stride);
    LoadsEndInside(t, q, rest[1..], cell, rel - i * di.stride);
    StructStartsWithField(t, q, rest[1..]);
  }

  lemma LoadPlain(t: Table, p: Place, rest: seq<Token>, cell: TypeSpec, rel: int)
    requires Grounded(t.types) && LoadPath(t, p, rest, cell, rel)
    ensures Plain(t, p, rest)
  {
  }

  lemma StructStartsWithField(t: Table, q: Place, rest: seq<Token>)
    requires FieldsFit(t) && q.Ref? && q.spec.base in t.types && t.types[q.spec.base].kind.StructKind?
             && Plain(t, q, rest)
    ensures rest != [] ==> rest[0].FieldTok?
  {
    assert rest != [] ==> PlainStep(t, q, rest[0]);
  }

  lemma {:induction false} FieldEnd(t: Table, p: Place, name: string, q: Place, rest: seq<Token>, cell: TypeSpec,
                                    rel: int)
    requires FieldsFit(t) && p.Ref? && LoadPath(t, p, rest, cell, rel)
    requires rest != [] && rest[0] == FieldTok(name) && Step(t, p, rest[0]) == Some(q) && q.Ref?
    ensures EndsInside(t, p, rest, rel, LoadBytes(t, cell))
    decreases |rest|, 0
  {
    var rel' := rel - (q.at - p.at);
    LoadsEndInside(t, q, rest[1..], cell, rel');
    FieldRegion(t, p, name, q);
    var f := GetFieldInfo(t, p.spec.base, name).value.field;
    var tok := rest[1..][0];
    assert EndsInside(t, q, rest[1..], rel', LoadBytes(t, cell));
    if f.isArray {
      ArrayEnd(t, q, tok, f.arraySize);
    } else {
      assert PlainStep(t, q, tok);
    }
  }

  lemma ArrayEnd(t: Table, q: Place, tok: Token, count: int)
    requires FieldsFit(t) && q.Ref? && q.spec.base in ["pointer", "inline-array"] && q.bound == Some(count)
             && PlainStep(t, q, tok)
    ensures tok.ConstIdx? && ElementAccess(t, q.spec).Some?
    ensures var stride, at := ElementAccess(t, q.spec).value.stride, Step(t, q, tok).value.at - q.at;
            0 <= at && at + stride <= count * stride
  {
    var stride := ElementAccess(t, q.spec).value.stride;
    if q.spec.base == "inline-array" {
      var d := t.types[q.spec.args[0].base];
      AlignUpIsLeast(d.kind.size, d.StrideAlignment(), 0);
    }
    ElementRange(tok.idx, count, stride);
  }

  lemma ElementRange(i: int, count: int, stride: int)
    requires 0 <= i < count && stride >= 0
    ensures 0 <= i * stride && i * stride + stride <= count * stride
  {
    MulMono(stride, 0, i);
    MulMono(stride, i + 1, count);
  }

  /** `rest` leads from `p` to a load that the search would accept. */
  ghost predicate Leads(t: Table, input: Input, p: Place, rest: seq<Token>, cell: TypeSpec)
    requires Grounded(t.types)
  {
    && input.deref.Some? && input.stride == 0
    && p.Ref? && p.spec == input.base
    && LoadPath(t, p, rest, cell, input.offset) && Accepts(t, cell, input.deref.value)
  }

  /** The hit is there, unless the search failed or was cut short. */
  ghost predicate Found(o: Outcome, max: int, h: Hit) { o.Done? && |o.hits| < max ==> h in o.hits }

  lemma AcceptedSize(t: Table, cell: TypeSpec, dk: DerefKind)
    requires Searchable(t) && Accepts(t, cell, dk)
    ensures dk.size == LoadBytes(t, cell) && dk.size >= 1
  {
    var d := Resolve(t, cell.base).value;
    assert cell.base in t.types ==> d == t.types[cell.base];
  }

  lemma QuotientOf(i: int, stride: int, x: int)
    requires i >= 0 && 0 <= x < stride
    ensures Quotient(i * stride + x, stride) == i
  {
    DivModUnique(i * stride + x, stride, i, x);
    MulMono(stride, 0, i);
  }

  /** Division toward zero picks index `i` from its own bytes, and index 0 also from the bytes in front of it. */
  lemma QuotientExactly(i: int, stride: int, x: int)
    requires i >= 0 && x < stride && stride > 0
    ensures Quotient(i * stride + x, stride) == i <==> (0 <= x || (i == 0 && -stride < x))
  {
    var a := i * stride + x;
    if 0 <= x {
      QuotientOf(i, stride, x);
    } else if i > 0 {
      if a >= 0 {
        var q := a / stride;
        assert a == stride * q + a % stride;
        if q >= i { MulMono(stride, i, q); }
      } else {
        assert -a >= 0 ==> (-a) / stride >= 0;
      }
    } else {
      BelowOne(-x, stride);
    }
  }

  lemma BelowOne(y: int, stride: int)
    requires y > 0 && stride > 0
    ensures y / stride == 0 <==> y < stride
  {
  }

  lemma PointerPath(t: Table, input: Input, p: Place, rest: seq<Token>, cell: TypeSpec) returns (i: int)
    requires FieldsFit(t) && Leads(t, input, p, rest, cell) && input.base.base == "pointer"
    ensures input.base.HasSingleArg() && input.base == PointerTo(cell) && rest == [ConstIdx(i)] && i >= 0
    ensures Step(t, p, rest[0]).Some? && Step(t, p, rest[0]).value.Mem?
    ensures GetDerefInfo(t, input.base).Some? && input.offset == i * GetDerefInfo(t, input.base).value.stride
  {
    assert PlainStep(t, p, rest[0]);
    i := rest[0].idx;
    PointerElementEnd(t, p, i);
    var q := Step(t, p, rest[0]).value;
    LoadEnds(t, q, rest[1..], cell, p.at + input.offset - q.at);
    assert rest == [ConstIdx(i)];
  }

  lemma PointerComplete(t: Table, input: Input, path: seq<Token>, p: Place, rest: seq<Token>, cell: TypeSpec)
    requires FieldsFit(t) && Leads(t, input, p, rest, cell) && input.base.base == "pointer"
    ensures input.base.HasSingleArg()
    ensures ArrayHits(t, input, path, false).Done? ==>
        Hit(false, cell, path + rest) in ArrayHits(t, input, path, false).hits
  {
    var i := PointerPath(t, input, p, rest, cell);
    var stride := GetDerefInfo(t, input.base).value.stride;
    if stride > 0 { QuotientOf(i, stride, 0); }
  }

  /** How far into the element picked by the search the offset is. */
  function ElementRest(t: Table, input: Input): int
    requires Grounded(t.types)
  {
    match GetDerefInfo(t, input.base)
    case Some(di) => input.offset - ElementIndex(t, input) * di.stride
    case None => 0
  }

  /**
   The first step of a load path in an inline array, and when the search takes the same step: `i` is the
   element of the path, `rel` what remains of the offset. The products stay out of the contract for the
   solver's sake.
   */
  lemma ElementStep(t: Table, input: Input, p: Place, rest: seq<Token>, cell: TypeSpec)
      returns (i: int, rel: int, q: Place)
    requires FieldsFit(t) && Leads(t, input, p, rest, cell) && input.base.base == "inline-array"
    ensures GetDerefInfo(t, input.base).Some? && GetDerefInfo(t, input.base).value.canDeref
            && !GetDerefInfo(t, input.base).value.memDeref
    ensures rest != [] && rest[0] == ConstIdx(i) && Step(t, p, rest[0]) == Some(q)
            && rel == input.offset - (q.at - p.at)
    ensures q.Ref? && q.spec == GetDerefInfo(t, input.base).value.result && input.base == InlineArrayOf(q.spec)
            && q.spec.base != "inline-array"
    ensures q.spec.base in t.types && t.types[q.spec.base].kind.StructKind?
    ensures Leads(t, Input(input.deref, rel, 0, q.spec), q, rest[1..], cell)
    ensures var stride := GetDerefInfo(t, input.base).value.stride;
            && (StepInOrder(t, p, rest[0], q, rel) ==> stride > 0)
            && (stride > 0 ==> (StepInOrder(t, p, rest[0], q, rel) <==> i == ElementIndex(t, input)))
    ensures i == ElementIndex(t, input) ==> rel == ElementRest(t, input)
    ensures Lead(t, q.spec) == Lead(t, p.spec) && (GetDerefInfo(t, input.base).value.stride > 0 ==> p.at <= q.at)
  {
    hide LoadPath, EndsInside, GetDerefInfo, Step, FieldFits, DistinctFields, Accepts;
    ElementDeref(t, p, rest, cell, input.offset);
    var di := GetDerefInfo(t, p.spec).value;
    i := rest[0].idx;
    q := Step(t, p, rest[0]).value;
    rel := input.offset - i * di.stride;
    ElementRoom(t, input, q, rest[1..], cell, rel, di);
    var x := rel + Lead(t, q.spec);
    if di.stride > 0 {
      QuotientExactly(i, di.stride, x);
      MulMono(di.stride, 0, i);
      assert i * di.stride + x == ElementBox(t, p.spec) + input.offset;
    }
  }

  /** The load ends before the end of its element. */
  lemma ElementRoom(t: Table, input: Input, q: Place, rest: seq<Token>, cell: TypeSpec, rel: int, di: DerefInfo)
    requires FieldsFit(t) && input.deref.Some? && Accepts(t, cell, input.deref.value)
    requires GetDerefInfo(t, input.base) == Some(di) && di.canDeref && !di.memDeref
             && input.base == InlineArrayOf(di.result)
    requires q.Ref? && q.spec == di.result && LoadPath(t, q, rest, cell, rel)
    requires q.spec.base in t.types && t.types[q.spec.base].kind.StructKind?
             && t.types[q.spec.base].kind.size <= di.stride
    ensures q.spec.base != "inline-array" && Lead(t, q.spec) == ElementBox(t, input.base)
    ensures rel + Lead(t, q.spec) < di.stride
  {
    LoadsEndInside(t, q, rest, cell, rel);
    StructStartsWithField(t, q, rest);
    AcceptedSize(t, cell, input.deref.value);
  }

  lemma {:induction false} StepInto(t: Table, next: Input, path: seq<Token>, acc: seq<Hit>, max: int, fuel: nat,
                                    q: Place, rest: seq<Token>, cell: TypeSpec)
    requires FieldsFit(t) && rest != [] && Leads(t, next, q, rest[1..], cell) && InOrder(t, q, rest[1..], next.offset)
    ensures Found(Search(t, next, path + [rest[0]], acc, max, fuel), max, Hit(false, cell, path + rest))
    decreases fuel, 4, 0
  {
    hide Leads, InOrder, Search, FieldFits, DistinctFields;
    assert path + [rest[0]] + rest[1..] == path + rest;
    SearchComplete(t, next, path + [rest[0]], acc, max, fuel, q, rest[1..], cell);
  }

  lemma {:induction false} SearchComplete(t: Table, input: Input, path: seq<Token>, acc: seq<Hit>, max: int, fuel: nat,
                                          p: Place, rest: seq<Token>, cell: TypeSpec)
    requires FieldsFit(t) && Leads(t, input, p, rest, cell) && InOrder(t, p, rest, input.offset)
    ensures Found(Search(t, input, path, acc, max, fuel), max, Hit(false, cell, path + rest))
    decreases fuel, 3, 0
  {
    hide LoadPath, InOrder, ArrayHits, SearchInlineArray, SearchOther, DistinctFields, FieldFits;
    var o := Search(t, input, path, acc, max, fuel);
    if o.Done? && |o.hits| < max {
      if input.base.base == "pointer" {
        PointerComplete(t, input, path, p, rest, cell);
      } else if input.base.base == "inline-array" {
        InlineComplete(t, input, path, acc, max, fuel, p, rest, cell);
      } else {
        OtherComplete(t, input, path, acc, max, fuel, p, rest, cell);
      }
    }
  }

  /** A load inside an inline array: the search is the one inside the element. */
  lemma InlineLoad(t: Table, input: Input, path: seq<Token>, acc: seq<Hit>, max: int, fuel: nat)
    requires Grounded(t.types) && input.deref.Some? && input.stride == 0 && fuel > 0 && |acc| < max
    requires input.base.base == "inline-array" && GetDerefInfo(t, input.base).Some?
    requires var di := GetDerefInfo(t, input.base).value;
        di.canDeref && !di.memDeref && input.base == InlineArrayOf(di.result)
    ensures var di := GetDerefInfo(t, input.base).value;
            SearchInlineArray(t, input, path, acc, max, fuel) ==
            if di.stride <= 0 then Failed
            else Search(t, Input(input.deref, ElementRest(t, input), 0, di.result),
                        path + [ConstIdx(ElementIndex(t, input))], acc, max, fuel - 1)
  {
    var elt := GetDerefInfo(t, input.base).value.result.base;
    assert elt in t.types && !t.types[elt].kind.NullKind?;
    hide Search, GetDerefInfo;
    assert acc + [] == acc;
  }

  lemma {:induction false} InlineComplete(t: Table, input: Input, path: seq<Token>, acc: seq<Hit>, max: int, fuel: nat,
                                          p: Place, rest: seq<Token>, cell: TypeSpec)
    requires FieldsFit(t) && Leads(t, input, p, rest, cell) && InOrder(t, p, rest, input.offset)
             && input.base.base == "inline-array" && fuel > 0
    ensures |acc| < max ==> Found(SearchInlineArray(t, input, path, acc, max, fuel), max, Hit(false, cell, path + rest))
    decreases fuel, 2, 0
  {
    hide LoadPath, Search, SearchInlineArray, GetDerefInfo, FieldFits, DistinctFields, Step, StepInOrder, ElementIndex,
        ElementRest;
    if |acc| < max {
      var i, rel, q := ElementStep(t, input, p, rest, cell);
      StepInto(t, Input(input.deref, rel, 0, q.spec), path, acc, max, fuel - 1, q, rest, cell);
      InlineLoad(t, input, path, acc, max, fuel);
    }
  }

  /** A path from anything but a pointer or inline array starts with a field. */
  lemma FieldStarts(t: Table, input: Input, p: Place, rest: seq<Token>, cell: TypeSpec) returns (j: nat)
    requires FieldsFit(t) && Leads(t, input, p, rest, cell) && input.base.base != "pointer"
             && input.base.base != "inline-array"
    ensures input.base.base in t.types && t.types[input.base.base].kind.StructKind?
            && j < |t.types[input.base.base].kind.fields|
    ensures rest != [] && rest[0] == FieldTok(t.types[input.base.base].kind.fields[j].name)
    ensures GetFieldInfo(t, input.base.base, t.types[input.base.base].kind.fields[j].name).Some?
    ensures input.base.base == "array" && input.base.HasSingleArg() ==> input.offset < ARRAY_DATA_OFFSET
  {
    assert PlainStep(t, p, rest[0]);
    LoadsEndInside(t, p, rest, cell, input.offset);
    AcceptedSize(t, cell, input.deref.value);
    var fields := t.types[input.base.base].kind.fields;
    var f := GetFieldInfo(t, p.spec.base, rest[0].name).value.field;
    j :| 0 <= j < |fields| && fields[j] == f;
  }

  lemma {:induction false} OtherComplete(t: Table, input: Input, path: seq<Token>, acc: seq<Hit>, max: int, fuel: nat,
                                         p: Place, rest: seq<Token>, cell: TypeSpec)
    requires FieldsFit(t) && Leads(t, input, p, rest, cell) && InOrder(t, p, rest, input.offset)
    requires input.base.base != "pointer" && input.base.base != "inline-array"
    ensures Found(Search(t, input, path, acc, max, fuel), max, Hit(false, cell, path + rest))
    decreases fuel, 2, 0
  {
    hide LoadPath, InOrder, ArrayHits, SearchInlineArray, SearchFields, DistinctFields, FieldFits;
    var o := Search(t, input, path, acc, max, fuel);
    if o.Done? && |o.hits| < max {
      var j := FieldStarts(t, input, p, rest, cell);
      assert Search(t, input, path, acc, max, fuel) == SearchOther(t, input, path, acc, max, fuel);
      FieldsComplete(t, input, path, acc, max, fuel, 0, j, p, rest, cell);
    }
  }

  lemma {:induction false} FieldsComplete(t: Table, input: Input, path: seq<Token>, acc: seq<Hit>, max: int, fuel: nat,
                                          i: nat, j: nat, p: Place, rest: seq<Token>, cell: TypeSpec)
    requires FieldsFit(t) && Leads(t, input, p, rest, cell) && InOrder(t, p, rest, input.offset) && fuel > 0
    requires input.base.base in t.types && t.types[input.base.base].kind.StructKind?
    requires i <= j < |t.types[input.base.base].kind.fields|
    requires rest != [] && rest[0] == FieldTok(t.types[input.base.base].kind.fields[j].name)
    ensures Found(SearchFields(t, input, path, acc, max, fuel, i), max, Hit(false, cell, path + rest))
    decreases fuel, 1, j - i
  {
    hide LoadPath, InOrder, SearchField, FieldFits, Accepts, DistinctFields;
    var o := SearchFields(t, input, path, acc, max, fuel, i);
    if o.Done? && |o.hits| < max {
      var fields := t.types[input.base.base].kind.fields;
      if i < j {
        if fields[i].skip {
          FieldsComplete(t, input, path, acc, max, fuel, i + 1, j, p, rest, cell);
        } else {
          var acc' := SearchField(t, input, path, acc, max, fuel, fields[i]).hits;
          FieldsComplete(t, input, path, acc', max, fuel, i + 1, j, p, rest, cell);
        }
      } else {
        SoughtField(t, input, p, rest, cell, j);
        FieldComplete(t, input, path, acc, max, fuel, fields[j], p, rest, cell);
      }
    }
  }

  /** The field a path starts with is a visible one, and a path to it is a field step. */
  lemma SoughtField(t: Table, input: Input, p: Place, rest: seq<Token>, cell: TypeSpec, j: nat)
    requires FieldsFit(t) && Leads(t, input, p, rest, cell)
    requires input.base.base in t.types && t.types[input.base.base].kind.StructKind?
             && j < |t.types[input.base.base].kind.fields|
    requires rest != [] && rest[0] == FieldTok(t.types[input.base.base].kind.fields[j].name)
    ensures PlainStep(t, p, rest[0]) && !t.types[input.base.base].kind.fields[j].skip
    ensures GetFieldInfo(t, p.spec.base, t.types[input.base.base].kind.fields[j].name).Some?
    ensures GetFieldInfo(t, p.spec.base, t.types[input.base.base].kind.fields[j].name).value.field
        == t.types[input.base.base].kind.fields[j]
  {
    FindDistinct(t.types[input.base.base].kind.fields, j);
    assert PlainStep(t, p, rest[0]);
  }

  /** The search inside a field, once it is entered. */
  lemma FieldLoad(t: Table, input: Input, path: seq<Token>, acc: seq<Hit>, max: int, fuel: nat, f: Field, rel: int)
    requires Grounded(t.types) && input.deref.Some? && input.stride == 0 && fuel > 0
    requires input.base.base in t.types && t.types[input.base.base].kind.StructKind?
    requires GetFieldInfo(t, input.base.base, f.name).Some?
             && !GetFieldInfo(t, input.base.base, f.name).value.needsDeref
    requires f.isInline ==> f.spec.base in t.types && !t.types[f.spec.base].kind.NullKind?
    requires SizeInType(t, f).Some?
    requires rel
        == input.offset
            + t.types[input.base.base].BoxOffset() - f.offset - if f.isInline then t.types[f.spec.base].BoxOffset()
                else 0
    requires input.offset + t.types[input.base.base].BoxOffset() - f.offset
        + AccessSize(input) <= SizeInType(t, f).value
    ensures SearchField(t, input, path, acc, max, fuel, f) ==
            if input.offset + t.types[input.base.base].BoxOffset() - f.offset < 0 then Done(acc)
            else Search(t, Input(input.deref, rel, 0, GetFieldInfo(t, input.base.base, f.name).value.spec),
                        path + [FieldTok(f.name)], acc, max, fuel - 1)
  {
    hide Search, GetFieldInfo, SizeInType;
  }

  /** The first step of a path into a reference field: the search takes it if and only if it is in order. */
  lemma FieldEntered(t: Table, input: Input, path: seq<Token>, acc: seq<Hit>, max: int, fuel: nat, f: Field, p: Place,
                     q: Place, rest: seq<Token>, cell: TypeSpec) returns (rel: int)
    requires FieldsFit(t) && Leads(t, input, p, rest, cell) && fuel > 0
    requires rest != [] && rest[0] == FieldTok(f.name) && PlainStep(t, p, rest[0]) && Step(t, p, rest[0]) == Some(q)
             && q.Ref?
    requires GetFieldInfo(t, p.spec.base, f.name).Some? && GetFieldInfo(t, p.spec.base, f.name).value.field == f
    ensures rel == input.offset - (q.at - p.at) && Leads(t, Input(input.deref, rel, 0, q.spec), q, rest[1..], cell)
    ensures input.base.base in t.types && t.types[input.base.base].kind.StructKind?
    ensures SearchField(t, input, path, acc, max, fuel, f) ==
            if StepInOrder(t, p, rest[0], q, rel) then Search(t, Input(input.deref, rel, 0, q.spec), path + [rest[0]],
                                                              acc, max, fuel - 1)
            else Done(acc)
  {
    hide LoadPath, Accepts, Search, GetFieldInfo, SizeInType, SearchField, FieldFits, DistinctFields, Step, PlainStep,
        Lead;
    rel := input.offset - (q.at - p.at);
    RestLeads(t, input, p, q, rest, cell);
    FieldRoom(t, input, f, p, q, rest[1..], cell, rel);
    FieldLoad(t, input, path, acc, max, fuel, f, rel);
  }

  lemma ScaleStays(t: Table, p: Place, tok: Token)
    requires Grounded(t.types) && PlainStep(t, p, tok)
    ensures Step(t, p, tok).value.scale == p.scale
  {
  }

  lemma RestLeads(t: Table, input: Input, p: Place, q: Place, rest: seq<Token>, cell: TypeSpec)
    requires Grounded(t.types) && Leads(t, input, p, rest, cell)
    requires rest != [] && Step(t, p, rest[0]) == Some(q) && q.Ref?
    ensures Leads(t, Input(input.deref, input.offset - (q.at - p.at), 0, q.spec), q, rest[1..], cell)
  {
    hide Accepts, Step, PlainStep;
    assert PlainStep(t, p, rest[0]);
    ScaleStays(t, p, rest[0]);
  }

  lemma FieldRoom(t: Table, input: Input, f: Field, p: Place, q: Place, rest: seq<Token>, cell: TypeSpec, rel: int)
    requires FieldsFit(t) && p.Ref? && p.spec == input.base && input.deref.Some? && Accepts(t, cell, input.deref.value)
    requires PlainStep(t, p, FieldTok(f.name)) && Step(t, p, FieldTok(f.name)) == Some(q) && q.Ref?
    requires GetFieldInfo(t, p.spec.base, f.name).Some? && GetFieldInfo(t, p.spec.base, f.name).value.field == f
    requires rel == input.offset - (q.at - p.at) && LoadPath(t, q, rest, cell, rel)
    ensures input.base.base in t.types && t.types[input.base.base].kind.StructKind? && SizeInType(t, f).Some?
    ensures !GetFieldInfo(t, p.spec.base, f.name).value.needsDeref
            && q.spec == GetFieldInfo(t, p.spec.base, f.name).value.spec
    ensures f.isInline ==> f.spec.base in t.types && !t.types[f.spec.base].kind.NullKind?
    ensures var into := input.offset + t.types[input.base.base].BoxOffset() - f.offset;
            && into == rel + Lead(t, q.spec)
            && Lead(t, q.spec) == (if f.isInline then t.types[f.spec.base].BoxOffset() else 0)
            && into + AccessSize(input) <= SizeInType(t, f).value
  {
    FieldRegion(t, p, f.name, q);
    LoadsEndInside(t, q, rest, cell, rel);
    AcceptedSize(t, cell, input.deref.value);
    assert PlainStep(t, q, rest[0]);
    if f.isArray {
      ArrayEnd(t, q, rest[0], f.arraySize);
    }
  }

  lemma {:induction false} FieldComplete(t: Table, input: Input, path: seq<Token>, acc: seq<Hit>, max: int, fuel: nat,
                                         f: Field, p: Place, rest: seq<Token>, cell: TypeSpec)
    requires FieldsFit(t) && Leads(t, input, p, rest, cell) && InOrder(t, p, rest, input.offset) && fuel > 0
    requires input.base.base in t.types && t.types[input.base.base].kind.StructKind?
    requires rest != [] && rest[0] == FieldTok(f.name) && PlainStep(t, p, rest[0])
    requires GetFieldInfo(t, p.spec.base, f.name).Some? && GetFieldInfo(t, p.spec.base, f.name).value.field == f
    ensures Found(SearchField(t, input, path, acc, max, fuel, f), max, Hit(false, cell, path + rest))
    decreases fuel, 0, 0
  {
    hide LoadPath, Search, SearchField, GetFieldInfo, FieldFits, DistinctFields, Step, StepInOrder, Accepts;
    var q := Step(t, p, rest[0]).value;
    if q.Mem? {
      CellFound(t, input, path, acc, max, fuel, f, p, rest, cell);
    } else {
      var rel := FieldEntered(t, input, path, acc, max, fuel, f, p, q, rest, cell);
      StepInto(t, Input(input.deref, rel, 0, q.spec), path, acc, max, fuel - 1, q, rest, cell);
    }
  }

  /** A path that ends with the field it starts with. */
  lemma CellFound(t: Table, input: Input, path: seq<Token>, acc: seq<Hit>, max: int, fuel: nat, f: Field, p: Place,
                  rest: seq<Token>, cell: TypeSpec)
    requires FieldsFit(t) && Leads(t, input, p, rest, cell) && fuel > 0
    requires input.base.base in t.types && t.types[input.base.base].kind.StructKind?
    requires rest != [] && rest[0] == FieldTok(f.name) && PlainStep(t, p, rest[0]) && Step(t, p, rest[0]).value.Mem?
    requires GetFieldInfo(t, p.spec.base, f.name).Some? && GetFieldInfo(t, p.spec.base, f.name).value.field == f
    ensures Found(SearchField(t, input, path, acc, max, fuel, f), max, Hit(false, cell, path + rest))
  {
    hide Search;
    var q := Step(t, p, rest[0]).value;
    LoadEnds(t, q, rest[1..], cell, p.at + input.offset - q.at);
    assert FieldFits(t, t.types[p.spec.base], f);
    CellSize(t, f);
    AcceptedSize(t, cell, input.deref.value);
    assert rest == [FieldTok(f.name)];
  }

  /**
   Completeness for loads: every load path of visible fixed fields and constant indices from 0 up whose
   steps are in order, and that ends at the offset asked for in a cell that the access matches, is among
   the hits, unless the limit on hits was reached.
   */
  lemma LookupIsComplete(t: Table, input: Input, max: int, fuel: nat, path: seq<Token>, cell: TypeSpec)
    requires FieldsFit(t) && Leads(t, input, From(input.base), path, cell)
             && InOrder(t, From(input.base), path, input.offset)
    requires Search(t, input, [], [], max, fuel).Done? && |Search(t, input, [], [], max, fuel).hits| < max
    ensures Hit(false, cell, path) in Search(t, input, [], [], max, fuel).hits
  {
    SearchComplete(t, input, [], [], max, fuel, From(input.base), path, cell);
    assert [] + path == path;
  }

  /** The elements of a boxed array count as dynamic data inside another type; asked for directly, they are found. */
  lemma BoxedElementIsFound(t: Table, input: Input, max: int, fuel: nat, i: nat)
    requires Searchable(t) && input.base.base == "array" && input.base.HasSingleArg()
    requires input.deref.Some? && input.stride == 0 && Accepts(t, input.base.args[0], input.deref.value)
    requires Step(t, From(input.base), ConstIdx(i)) == Some(Mem(input.base.args[0], input.offset, 0))
    requires Search(t, input, [], [], max, fuel).Done? && |Search(t, input, [], [], max, fuel).hits| < max
    ensures Hit(false, input.base.args[0], [ConstIdx(i)]) in Search(t, input, [], [], max, fuel).hits
  {
    var stride := GetDerefInfo(t, PointerTo(input.base.args[0])).value.stride;
    assert input.offset == ARRAY_DATA_OFFSET + i * stride;
    assert Search(t, input, [], [], max, fuel) == SearchArray(t, input, [], [], max, fuel, true);
    assert LoadBytes(t, input.base.args[0]) == stride;
    AcceptedSize(t, input.base.args[0], input.deref.value);
    MulMono(stride, 0, i);
    QuotientOf(i, stride, 0);
    assert [] + [ConstIdx(i)] == [ConstIdx(i)];
    assert ElementHits(input, [], true, stride, true) == [Hit(false, input.base.args[0], [ConstIdx(i)])];
  }
}

/** Every hit of the reverse lookup is a real path to the location that was asked about. */
module LookupSoundness {
  import opened Arithmetic
  import opened TypeTable
  import opened Wrappers
  import opened FieldPaths
  import opened ReverseLookup

  /** The facts about a table that a search rests on; every table built by deftypes has them. */
  ghost predicate Searchable(t: Table) {
    && Grounded(t.types)
    && (forall n <- t.types :: DistinctFields(t.types[n]) && (t.types[n].kind.ValueKind? ==> t.types[n].kind.size > 0))
    && "array" in t.types && t.types["array"].kind.StructKind? && t.types["array"].kind.basic
    && (forall f <- t.types["array"].kind.fields ::
          !f.isInline && (f.name == "data" ==> f.offset == ARRAY_DATA_OFFSET + BASIC_OFFSET))
  }

  predicate DistinctFields(d: TypeDef) {
    d.kind.StructKind? ==> forall i, j :: 0 <= i < j < |d.kind.fields| ==>
        d.kind.fields[i].name != d.kind.fields[j].name
  }

  lemma {:induction false} FindDistinct(fields: seq<Field>, i: nat)
    requires i < |fields|
    requires forall i, j :: 0 <= i < j < |fields| ==> fields[i].name != fields[j].name
    ensures FindField(fields, fields[i].name) == Some(fields[i])
  {
    if i > 0 {
      assert fields[0].name != fields[i].name;
      FindDistinct(fields[1..], i - 1);
    }
  }

  /** What a search was asked for, and from where. */
  datatype Goal = Goal(root: Place, offset: int, stride: int, deref: Option<DerefKind>)

  ghost predicate Accepts(t: Table, spec: TypeSpec, dk: DerefKind)
    requires Grounded(t.types)
  {
    GetCellInfo(t, spec).Some? && GetCellInfo(t, spec).value.Matches(dk)
  }

  /**
   The hit's path leads somewhere, exactly at the offset asked for unless a stride was asked for
   and the path has no variable index; its variable index, if any, has the stride asked for; and
   the hit's type and kind of access are right for the place it leads to.
   */
  ghost predicate Explained(t: Table, g: Goal, h: Hit)
    requires Grounded(t.types)
  {
    var p := Replay(t, g.root, h.tokens);
    p.Some? && Fits(t, g, h, p.value)
  }

  ghost predicate Fits(t: Table, g: Goal, h: Hit, p: Place)
    requires Grounded(t.types)
  {
    && (g.stride == 0 || p.scale != 0 ==> p.at == g.root.at + g.offset)
    && (p.scale != 0 ==> p.scale == g.stride)
    && (if h.addrOf then p.Mem? && h.spec == PointerTo(p.spec) && g.deref.None?
        else if g.deref.Some? then p.Mem? && h.spec == p.spec && Accepts(t, p.spec, g.deref.value)
        else p.Ref? && h.spec == p.spec)
  }

  ghost predicate Extends(t: Table, g: Goal, acc: seq<Hit>, hits: seq<Hit>)
    requires Grounded(t.types)
  {
    acc <= hits && forall i :: |acc| <= i < |hits| ==> Explained(t, g, hits[i])
  }

  /** The offset, counted from the start of an array's memory, is inside a fixed-size array. */
  ghost predicate InsideBound(t: Table, p: Place, offset: int, access: int)
    requires Grounded(t.types)
  {
    p.Ref? && p.bound.Some? && p.spec.base != "array" && ElementAccess(t, p.spec).Some? ==>
      0 <= offset + ElementBox(t, p.spec)
      && offset + ElementBox(t, p.spec) + access <= p.bound.value * ElementAccess(t, p.spec).value.stride
  }

  /** Inline arrays are referred to by the reference of their first element. */
  function ElementBox(t: Table, spec: TypeSpec): int {
    if spec.base == "inline-array" && spec.HasSingleArg() && spec.args[0].base in t.types
        && !t.types[spec.args[0].base].kind.NullKind?
    then t.types[spec.args[0].base].BoxOffset() else 0
  }

  /** The path so far leads to a reference of the type now searched, and the rest of the offset is still to go. */
  ghost predicate OnTheWay(t: Table, g: Goal, input: Input, path: seq<Token>)
    requires Grounded(t.types)
  {
    Replay(t, g.root, path).Some? && Underway(t, g, input, Replay(t, g.root, path).value)
  }

  ghost predicate Underway(t: Table, g: Goal, input: Input, p: Place)
    requires Grounded(t.types)
  {
    && input.deref == g.deref && AccessSize(input) >= 1
    && p.Ref? && p.spec == input.base
    && p.at + input.offset == g.root.at + g.offset
    && (if p.scale == 0 then input.stride == g.stride else input.stride == 0 && p.scale == g.stride)
    && InsideBound(t, p, input.offset, AccessSize(input))
    && (p.bound.Some? ==> p.spec.base != "array")
  }

  lemma IndexInside(x: int, stride: int, count: int)
    requires stride > 0 && 0 <= x && x + 1 <= count * stride
    ensures 0 <= x / stride < count
  {
    var q := x / stride;
    assert x == stride * q + x % stride;
    if q < 0 { MulMono(stride, q, -1); }
    if q >= count {
      MulMono(stride, count, q);
      assert false;
    }
  }

  /** Indexing a pointer or the data of a boxed array, one step forward. */
  lemma IndexPointer(t: Table, root: Place, path: seq<Token>, p: Place, boxed: bool)
    requires Grounded(t.types) && Replay(t, root, path) == Some(p)
    requires p.Ref? && p.spec.HasSingleArg() && p.spec.base == (if boxed then "array" else "pointer")
    requires GetDerefInfo(t, PointerTo(p.spec.args[0])).Some?
             && GetDerefInfo(t, PointerTo(p.spec.args[0])).value.canDeref
    ensures var first, stride := if boxed then ARRAY_DATA_OFFSET
        else 0, GetDerefInfo(t, PointerTo(p.spec.args[0])).value.stride;
            && ElementAccess(t, p.spec) == Some(Indexing(stride, first, true))
            && (p.scale == 0 ==> Replay(t, root, path + [VarIdx]) == Some(Mem(p.spec.args[0], p.at + first, stride)))
            && (forall i :: (p.bound.Some? ==> 0 <= i < p.bound.value) ==>
                  Replay(t, root, path + [ConstIdx(i)])
                      == Some(Mem(p.spec.args[0], p.at + first + i * stride, p.scale)))
            && (boxed ==>
                  Replay(t, root, path + [FieldTok("data")])
                      == Some(Ref(PointerTo(p.spec.args[0]), p.at + first, p.scale, None)))
  {
    assert !boxed ==> p.spec == PointerTo(p.spec.args[0]);
    ReplaySnoc(t, root, path, VarIdx);
    ReplaySnoc(t, root, path, FieldTok("data"));
    forall i | p.bound.Some? ==> 0 <= i < p.bound.value
      ensures Replay(t, root, path + [ConstIdx(i)]) == Step(t, p, ConstIdx(i))
    {
      ReplaySnoc(t, root, path, ConstIdx(i));
    }
  }

  lemma ConstantIndexInside(t: Table, p: Place, offset: int, access: int, idx: int)
    requires Grounded(t.types) && InsideBound(t, p, offset, access) && access >= 1
    requires p.Ref? && p.spec.base != "array"
    requires p.bound.Some?
    requires ElementAccess(t, p.spec).Some? && ElementAccess(t, p.spec).value.stride > 0
    requires idx == Quotient(ElementBox(t, p.spec) + offset, ElementAccess(t, p.spec).value.stride)
    ensures 0 <= idx < p.bound.value
  {
    IndexInside(ElementBox(t, p.spec) + offset, ElementAccess(t, p.spec).value.stride, p.bound.value);
  }

  /** The places the hits of `ElementHits` lead to. */
  lemma ElementsFit(t: Table, g: Goal, input: Input, path: seq<Token>, p: Place, boxed: bool, stride: int,
                    matches: bool)
    requires Grounded(t.types) && Underway(t, g, input, p) && input.base.HasSingleArg()
    requires input.stride == 0 ==> stride > 0
    requires matches == (input.deref.Some? && Accepts(t, input.base.args[0], input.deref.value))
    ensures var elt, first := input.base.args[0], if boxed then ARRAY_DATA_OFFSET else 0;
            forall h <- ElementHits(input, path, boxed, stride, matches) ::
              if input.stride != 0 then h.tokens == path + [VarIdx] && Fits(t, g, h, Mem(elt, p.at + first, stride))
              else
                var idx := Quotient(input.offset - first, stride);
                && input.offset - first == idx * stride
                && ((h.tokens == path + [ConstIdx(idx)]
                     && Fits(t, g, h, Mem(elt, p.at + first + idx * stride, p.scale)))
                    || (boxed && h.tokens == path + [FieldTok("data")]
                        && Fits(t, g, h, Ref(PointerTo(elt), p.at + first, p.scale, None)))
                    || (h.tokens == path && Fits(t, g, h, p)))
  {
  }

  lemma ArrayHitsAre(t: Table, input: Input, path: seq<Token>, boxed: bool)
    requires Grounded(t.types) && input.base.HasSingleArg() && ArrayHits(t, input, path, boxed).Done?
    ensures var elt := input.base.args[0];
            && GetDerefInfo(t, PointerTo(elt)).Some? && GetDerefInfo(t, PointerTo(elt)).value.canDeref
            && (input.stride == 0 ==> GetDerefInfo(t, PointerTo(elt)).value.stride > 0)
            && ArrayHits(t, input, path, boxed).hits
               == ElementHits(input, path, boxed, GetDerefInfo(t, PointerTo(elt)).value.stride,
                              input.deref.Some? && Accepts(t, elt, input.deref.value))
  {
    hide ElementHits;
  }

  lemma ArraySound(t: Table, g: Goal, input: Input, path: seq<Token>, boxed: bool)
    requires Searchable(t) && OnTheWay(t, g, input, path) && input.base.HasSingleArg()
    requires input.base.base == if boxed then "array" else "pointer"
    requires ArrayHits(t, input, path, boxed).Done?
    ensures forall h <- ArrayHits(t, input, path, boxed).hits :: Explained(t, g, h)
  {
    hide Replay, Fits, DistinctFields, GetDerefInfo, GetCellInfo, ArrayHits, ElementHits, Step;
    var p := Replay(t, g.root, path).value;
    var elt := input.base.args[0];
    ArrayHitsAre(t, input, path, boxed);
    var di := GetDerefInfo(t, PointerTo(elt)).value;
    IndexPointer(t, g.root, path, p, boxed);
    var first := if boxed then ARRAY_DATA_OFFSET else 0;
    if input.stride == 0 && p.bound.Some? {
      ConstantIndexInside(t, p, input.offset, AccessSize(input), Quotient(input.offset - first, di.stride));
    }
    ElementsFit(t, g, input, path, p, boxed, di.stride, input.deref.Some? && Accepts(t, elt, input.deref.value));
  }

  /** One index into an inline array, forward. */
  lemma IndexInline(t: Table, root: Place, path: seq<Token>, p: Place, i: int)
    requires Grounded(t.types) && Replay(t, root, path) == Some(p)
    requires p.Ref? && p.spec.base == "inline-array"
    requires GetDerefInfo(t, p.spec).Some? && GetDerefInfo(t, p.spec).value.canDeref
    ensures var di := GetDerefInfo(t, p.spec).value;
            && !di.memDeref && p.spec == InlineArrayOf(di.result)
            && ElementAccess(t, p.spec) == Some(Indexing(di.stride, 0, false))
            && (p.scale == 0 ==> Replay(t, root, path + [VarIdx]) == Some(Ref(di.result, p.at, di.stride, None)))
            && ((p.bound.Some? ==> 0 <= i < p.bound.value) ==>
                  Replay(t, root, path + [ConstIdx(i)]) == Some(Ref(di.result, p.at + i * di.stride, p.scale, None)))
  {
    ReplaySnoc(t, root, path, VarIdx);
    ReplaySnoc(t, root, path, ConstIdx(i));
  }

  /** The element an inline array search descends to, when no variable index is taken. */
  function ElementIndex(t: Table, input: Input): int
    requires Grounded(t.types)
  {
    match GetDerefInfo(t, input.base)
    case Some(di) => if di.stride > 0 then Quotient(ElementBox(t, input.base) + input.offset, di.stride) else 0
    case None => 0
  }

  lemma {:induction false} InlineSound(t: Table, g: Goal, input: Input, path: seq<Token>, acc: seq<Hit>, max: int,
                                       fuel: nat)
    requires Searchable(t) && OnTheWay(t, g, input, path) && fuel > 0 && input.base.base == "inline-array"
    requires SearchInlineArray(t, input, path, acc, max, fuel).Done?
    ensures Extends(t, g, acc, SearchInlineArray(t, input, path, acc, max, fuel).hits)
    decreases fuel, 2, 0
  {
    if |acc| < max {
      var p := Replay(t, g.root, path).value;
      var di := GetDerefInfo(t, input.base).value;
      var idx := ElementIndex(t, input);
      IndexInline(t, g.root, path, p, idx);
      if input.stride != 0 && input.stride == di.stride && input.offset < di.stride {
        var hits := if input.offset == 0 && input.deref.None? then [Hit(false, di.result, path + [VarIdx])] else [];
        InsideElement(t, g, Input(input.deref, input.offset, 0, di.result), path + [VarIdx], acc, hits,
                      Ref(di.result, p.at, di.stride, None), max, fuel);
      } else {
        if p.bound.Some? { ConstantIndexInside(t, p, input.offset, AccessSize(input), idx); }
        InlineConstSound(t, g, input, path, acc, max, fuel, p, di, idx);
      }
    }
  }

  /** The hits on an array element, then the search inside that element. */
  lemma {:induction false} InsideElement(t: Table, g: Goal, next: Input, path: seq<Token>, acc: seq<Hit>,
                                         hits: seq<Hit>, q: Place, max: int, fuel: nat)
    requires Searchable(t) && fuel > 0
    requires Replay(t, g.root, path) == Some(q) && Underway(t, g, next, q)
    requires forall h <- hits :: Explained(t, g, h) || (h.tokens == path && Fits(t, g, h, q))
    ensures Extends(t, g, acc, acc + hits)
    ensures Search(t, next, path, acc + hits, max, fuel - 1).Done? ==>
              Extends(t, g, acc, Search(t, next, path, acc + hits, max, fuel - 1).hits)
    decreases fuel, 0, 0
  {
    if Search(t, next, path, acc + hits, max, fuel - 1).Done? {
      SearchSound(t, g, next, path, acc + hits, max, fuel - 1);
    }
  }

  lemma InlineConstUnfolds(t: Table, input: Input, path: seq<Token>, acc: seq<Hit>, max: int, fuel: nat, di: DerefInfo,
                           next: Input, path': seq<Token>)
    requires Searchable(t) && fuel > 0 && |acc| < max
    requires GetDerefInfo(t, input.base) == Some(di) && di.canDeref && !di.memDeref
             && input.base == InlineArrayOf(di.result)
    requires !(input.stride != 0 && input.stride == di.stride && input.offset < di.stride)
    requires SearchInlineArray(t, input, path, acc, max, fuel).Done?
    requires path' == path + [ConstIdx(ElementIndex(t, input))]
    requires next == Input(input.deref, input.offset - ElementIndex(t, input) * di.stride, input.stride, di.result)
    ensures var exact := next.offset == 0 && input.deref.None?;
            var first := acc + if exact then [Hit(false, di.result, path')] else [];
            var both := first + if exact && ElementIndex(t, input) == 0
                && path != [] then [Hit(false, input.base, path)] else [];
            SearchInlineArray(t, input, path, acc, max, fuel)
              == if |first| >= max then Done(first) else if |both| >= max then Done(both)
                  else Search(t, next, path', both, max, fuel - 1)
  {
    hide Search, Replay, DistinctFields;
  }

  lemma {:induction false} InlineConstSound(t: Table, g: Goal, input: Input, path: seq<Token>, acc: seq<Hit>, max: int,
                                            fuel: nat, p: Place, di: DerefInfo, idx: int)
    requires Searchable(t) && fuel > 0 && |acc| < max && input.base == InlineArrayOf(di.result)
    requires Replay(t, g.root, path) == Some(p) && Underway(t, g, input, p)
    requires GetDerefInfo(t, input.base) == Some(di) && di.canDeref && !di.memDeref && idx == ElementIndex(t, input)
    requires !(input.stride != 0 && input.stride == di.stride && input.offset < di.stride)
    requires Replay(t, g.root, path + [ConstIdx(idx)]) == Some(Ref(di.result, p.at + idx * di.stride, p.scale, None))
    requires SearchInlineArray(t, input, path, acc, max, fuel).Done?
    ensures Extends(t, g, acc, SearchInlineArray(t, input, path, acc, max, fuel).hits)
    decreases fuel, 1, 0
  {
    hide Search, SearchInlineArray, GetDerefInfo, Replay, ElementBox, ElementIndex;
    var into := input.offset - idx * di.stride;
    var exact := into == 0 && input.deref.None?;
    var next := Input(input.deref, into, input.stride, di.result);
    var q := Ref(di.result, p.at + idx * di.stride, p.scale, None);
    var path' := path + [ConstIdx(idx)];
    var hits := if exact then [Hit(false, di.result, path')] else [];
    var hits' := if exact && idx == 0 && path != [] then [Hit(false, input.base, path)] else [];
    assert exact && idx == 0 ==> Fits(t, g, Hit(false, input.base, path), p);
    InsideElement(t, g, next, path', acc, hits, q, max, fuel);
    InsideElement(t, g, next, path', acc + hits, hits', q, max, fuel);
    InlineConstUnfolds(t, input, path, acc, max, fuel, di, next, path');
  }

  /** Following a field forward, in the terms of the search. */
  lemma FollowField(t: Table, root: Place, path: seq<Token>, p: Place, i: nat)
    requires Searchable(t) && Replay(t, root, path) == Some(p) && p.Ref?
    requires p.spec.base in t.types && t.types[p.spec.base].kind.StructKind? && i < |t.types[p.spec.base].kind.fields|
    requires p.spec.base == "array" && p.spec.HasSingleArg() ==> t.types[p.spec.base].kind.fields[i].name != "data"
    requires GetFieldInfo(t, p.spec.base, t.types[p.spec.base].kind.fields[i].name).Some?
    ensures var f, info := t.types[p.spec.base].kind.fields[i],
        GetFieldInfo(t, p.spec.base, t.types[p.spec.base].kind.fields[i].name).value;
            && info.field == f
            && var start := p.at - t.types[p.spec.base].BoxOffset() + f.offset;
               && (info.needsDeref ==>
                     Replay(t, root, path + [FieldTok(f.name)]) == Some(Mem(info.spec, start, p.scale)))
               && (!info.needsDeref && (f.isInline ==>
                     f.spec.base in t.types && !t.types[f.spec.base].kind.NullKind?) ==>
                     Replay(t, root, path + [FieldTok(f.name)]) ==
                     Some(Ref(info.spec, start + if f.isInline then t.types[f.spec.base].BoxOffset()
                         else 0, p.scale, ArrayBound(f))))
  {
    FindDistinct(t.types[p.spec.base].kind.fields, i);
    ReplaySnoc(t, root, path, FieldTok(t.types[p.spec.base].kind.fields[i].name));
  }

  lemma AlignSelf(size: int)
    requires size > 0
    ensures AlignUp(size, size) == size
  {
    MultipleMod(1, size);
  }

  /** The size check on a fixed-size array field puts the rest of the offset inside the array. */
  lemma FieldInside(t: Table, owner: string, name: string, at: int, scale: int, into: int, access: int)
    requires Searchable(t) && GetFieldInfo(t, owner, name).Some?
    requires var f := GetFieldInfo(t, owner, name).value.field;
             && 0 <= into && ArrayBound(f).Some?
             && SizeInType(t, f).Some? && into + access <= SizeInType(t, f).value
             && (f.isInline ==> f.spec.base in t.types && !t.types[f.spec.base].kind.NullKind?)
    ensures var info := GetFieldInfo(t, owner, name).value;
            var expected := if info.field.isInline then t.types[info.field.spec.base].BoxOffset() else 0;
            InsideBound(t, Ref(info.spec, at, scale, ArrayBound(info.field)), into - expected, access)
                && info.spec.base != "array"
  {
    var info := GetFieldInfo(t, owner, name).value;
    var d := Resolve(t, info.field.spec.base).value;
    if d.kind.ValueKind? {
      assert Resolve(t, info.field.spec.base) == Some(t.types[d.name]);
      AlignSelf(d.kind.size);
    }
  }

  /** Where the search expects the field named by a token to be, and the size check it makes there. */
  ghost predicate Reached(t: Table, input: Input, f: Field, into: int)
    requires input.base.base in t.types && t.types[input.base.base].kind.StructKind?
  {
    && into == input.offset + t.types[input.base.base].BoxOffset() - f.offset
    && 0 <= into && SizeInType(t, f).Some? && (into + AccessSize(input) <= SizeInType(t, f).value || f.dynamic)
  }

  lemma CellSound(t: Table, g: Goal, input: Input, path: seq<Token>, acc: seq<Hit>, max: int, fuel: nat, f: Field,
                  into: int, q: Place)
    requires Searchable(t) && OnTheWay(t, g, input, path) && fuel > 0
    requires input.base.base in t.types && t.types[input.base.base].kind.StructKind? && Reached(t, input, f, into)
    requires GetFieldInfo(t, input.base.base, f.name).Some? && GetFieldInfo(t, input.base.base, f.name).value.needsDeref
    requires Replay(t, g.root, path + [FieldTok(f.name)]) == Some(q)
    requires q == Mem(GetFieldInfo(t, input.base.base, f.name).value.spec,
                      Replay(t, g.root, path).value.at + input.offset - into, Replay(t, g.root, path).value.scale)
    requires SearchField(t, input, path, acc, max, fuel, f).Done?
    ensures Extends(t, g, acc, SearchField(t, input, path, acc, max, fuel, f).hits)
  {
    if into == 0 && input.stride == 0 && (input.deref.Some? ==> Accepts(t, q.spec, input.deref.value)) {
      var h :=
          Hit(input.deref.None?, if input.deref.None? then PointerTo(q.spec) else q.spec, path + [FieldTok(f.name)]);
      assert Fits(t, g, h, q);
      assert SearchField(t, input, path, acc, max, fuel, f).hits == acc + [h];
    }
  }

  lemma {:induction false} FieldSound(t: Table, g: Goal, input: Input, path: seq<Token>, acc: seq<Hit>, max: int,
                                      fuel: nat, i: nat)
    requires Searchable(t) && OnTheWay(t, g, input, path) && fuel > 0
    requires input.base.base in t.types && t.types[input.base.base].kind.StructKind?
             && i < |t.types[input.base.base].kind.fields|
    requires input.base.base == "array" && input.base.HasSingleArg() ==> input.offset < ARRAY_DATA_OFFSET
    requires SearchField(t, input, path, acc, max, fuel, t.types[input.base.base].kind.fields[i]).Done?
    ensures Extends(t, g, acc,
                    SearchField(t, input, path, acc, max, fuel, t.types[input.base.base].kind.fields[i]).hits)
    decreases fuel, 0, 0
  {
    hide Search, Replay, GetFieldInfo, SizeInType, InsideBound, DistinctFields, GetDerefInfo;
    var owner := t.types[input.base.base];
    var f := owner.kind.fields[i];
    var into := input.offset + owner.BoxOffset() - f.offset;
    if 0 <= into && (into + AccessSize(input) <= SizeInType(t, f).value || f.dynamic) {
      var p := Replay(t, g.root, path).value;
      FollowField(t, g.root, path, p, i);
      var info := GetFieldInfo(t, owner.name, f.name).value;
      if info.needsDeref {
        CellSound(t, g, input, path, acc, max, fuel, f, into, Mem(info.spec, p.at + input.offset - into, p.scale));
      } else {
        var expected := if f.isInline then t.types[f.spec.base].BoxOffset() else 0;
        var q := Ref(info.spec, p.at + input.offset - into + expected, p.scale, ArrayBound(f));
        EntersField(t, g, input, p, info.field, into, q);
        if into == expected && input.deref.None? && input.stride == 0 {
          var h := Hit(false, info.spec, path + [FieldTok(f.name)]);
          assert Fits(t, g, h, q);
        } else {
          SearchSound(t, g, Input(input.deref, into - expected, input.stride, info.spec), path + [FieldTok(f.name)],
                      acc, max, fuel - 1);
        }
      }
    }
  }

  /** The place behind a field that is not loaded, and the offset still to go from there. */
  lemma EntersField(t: Table, g: Goal, input: Input, p: Place, f: Field, into: int, q: Place)
    requires Searchable(t) && Underway(t, g, input, p)
    requires input.base.base in t.types && t.types[input.base.base].kind.StructKind? && Reached(t, input, f, into)
    requires GetFieldInfo(t, input.base.base, f.name).Some? && GetFieldInfo(t, input.base.base, f.name).value.field == f
    requires f.isInline ==> f.spec.base in t.types && !t.types[f.spec.base].kind.NullKind?
    requires var expected := if f.isInline then t.types[f.spec.base].BoxOffset() else 0;
             q == Ref(GetFieldInfo(t, input.base.base, f.name).value.spec, p.at + input.offset - into + expected,
                      p.scale, ArrayBound(f))
    ensures var expected := if f.isInline then t.types[f.spec.base].BoxOffset() else 0;
            Underway(t, g, Input(input.deref, into - expected, input.stride, q.spec), q)
  {
    hide GetFieldInfo, SizeInType, ElementBox, DistinctFields, GetDerefInfo, ElementAccess;
    if ArrayBound(f).Some? { FieldInside(t, input.base.base, f.name, q.at, q.scale, into, AccessSize(input)); }
  }

  lemma {:induction false} FieldsSound(t: Table, g: Goal, input: Input, path: seq<Token>, acc: seq<Hit>, max: int,
                                       fuel: nat, i: nat)
    requires Searchable(t) && OnTheWay(t, g, input, path) && fuel > 0
    requires input.base.base in t.types && t.types[input.base.base].kind.StructKind?
             && i <= |t.types[input.base.base].kind.fields|
    requires input.base.base == "array" && input.base.HasSingleArg() ==> input.offset < ARRAY_DATA_OFFSET
    requires SearchFields(t, input, path, acc, max, fuel, i).Done?
    ensures Extends(t, g, acc, SearchFields(t, input, path, acc, max, fuel, i).hits)
    decreases fuel, 0, |t.types[input.base.base].kind.fields| - i
  {
    var fields := t.types[input.base.base].kind.fields;
    if i < |fields| {
      if fields[i].skip {
        FieldsSound(t, g, input, path, acc, max, fuel, i + 1);
      } else if |acc| < max {
        FieldSound(t, g, input, path, acc, max, fuel, i);
        FieldsSound(t, g, input, path, SearchField(t, input, path, acc, max, fuel, fields[i]).hits, max, fuel, i + 1);
      }
    }
  }

  lemma {:induction false} SearchSound(t: Table, g: Goal, input: Input, path: seq<Token>, acc: seq<Hit>, max: int,
                                       fuel: nat)
    requires Searchable(t) && OnTheWay(t, g, input, path)
    requires Search(t, input, path, acc, max, fuel).Done?
    ensures Extends(t, g, acc, Search(t, input, path, acc, max, fuel).hits)
    decreases fuel, 3, 0
  {
    var boxed := input.base.base == "array" && input.base.HasSingleArg();
    if input.base.base == "inline-array" {
      InlineSound(t, g, input, path, acc, max, fuel);
    } else if input.base.base == "pointer" || (boxed && input.offset >= ARRAY_DATA_OFFSET) {
      if |acc| < max && input.base.HasSingleArg() { ArraySound(t, g, input, path, boxed); }
    } else if boxed && |acc| >= max {
    } else {
      assert Search(t, input, path, acc, max, fuel) == SearchOther(t, input, path, acc, max, fuel);
      if t.types[input.base.base].kind.StructKind? { FieldsSound(t, g, input, path, acc, max, fuel, 0); }
    }
  }

  /**
   Soundness, for every input and any limit on the number of hits: every hit is a path that can
   be followed from the base type; with no stride, or when the path has a variable index, it
   leads exactly to the offset asked for; it has at most one variable index, whose array has
   exactly the stride asked for; constant indices into fixed-size arrays are in range; and the
   reported type and access are those of the place reached.
   */
  lemma LookupIsSound(t: Table, input: Input, max: int, fuel: nat)
    requires Searchable(t) && AccessSize(input) >= 1
    requires Search(t, input, [], [], max, fuel).Done?
    ensures forall h <- Search(t, input, [], [], max, fuel).hits ::
              Explained(t, Goal(From(input.base), input.offset, input.stride, input.deref), h)
  {
    SearchSound(t, Goal(From(input.base), input.offset, input.stride, input.deref), input, [], [], max, fuel);
  }
}

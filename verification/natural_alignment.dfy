/**
 Exactly when a table built by deftypes keeps natural alignment: when every embedded field suits the cells that
 can be reached inside what it embeds. Dynamic data of a type that was only declared ahead may not.
 */
module NaturalAlignment {
  import opened Arithmetic
  import opened TypeTable
  import opened Wrappers
  import opened FieldPaths
  import opened Layout
  import opened MethodTables
  import opened LookupSoundness
  import opened LookupCompleteness
  import opened LookupTermination
  import opened Deftypes

  /** Paths without a variable index: they lead to every element of every array. */
  predicate ConstantPath(path: seq<Token>) { forall i :: 0 <= i < |path| ==> path[i] != VarIdx }

  /** Every cell of every object that starts at its start alignment is at a multiple of its own alignment. */
  ghost predicate NaturallyAligned(t: Table)
    requires Grounded(t.types)
  {
    forall n, address, path, cell, at ::
      Object(t, n, address) && ConstantPath(path)
      && Replay(t, Ref(Simple(n), address + t.types[n].BoxOffset(), 0, None), path) == Some(Mem(cell, at, 0))
      ==> IsMultiple(at, CellAlignment(t, cell))
  }

  predicate Object(t: Table, n: string, address: int) {
    n in t.types && t.types[n].kind.StructKind? && IsMultiple(address, t.types[n].StartAlignment())
  }

  // ---------------------------------------------------------------------------------------------
  // The condition
  // ---------------------------------------------------------------------------------------------

  /** The name of a field of the type; in a boxed array, `data` stands for the elements. */
  predicate Names(spec: TypeSpec, f: Field) { !(IsBoxed(spec) && f.name == "data") }

  /** There are elements, if the field is an array. */
  predicate HasElements(f: Field) { f.isArray ==> f.dynamic || f.arraySize > 0 }

  predicate HasSeveral(f: Field) { f.isArray && (f.dynamic || f.arraySize > 1) }

  /** A path can go on inside what the field embeds. */
  predicate Opens(t: Table, f: Field)
    requires Grounded(t.types)
  {
    && f.isInline && f.spec.base in t.types && t.types[f.spec.base].kind.StructKind? && HasElements(f)
    && (f.isArray ==> ElementAccess(t, InlineArrayOf(f.spec)).Some?)
  }

  /** The structure itself holds a cell with alignment `l`. */
  ghost predicate OwnCell(t: Table, spec: TypeSpec, l: int) {
    && spec.base in t.types && t.types[spec.base].kind.StructKind?
    && ((exists f <- t.types[spec.base].kind.fields ::
           IsCell(t, f) && HasElements(f) && Names(spec, f) && l == CellAlignment(t, f.spec))
        || (IsBoxed(spec) && Known(t, spec.args[0]) && l == CellAlignment(t, spec.args[0])))
  }

  /** So does it, or a structure embedded in it, up to this depth. */
  ghost predicate CellInside(t: Table, spec: TypeSpec, l: int, depth: nat)
    requires Grounded(t.types)
    decreases depth
  {
    depth > 0 && spec.base in t.types && t.types[spec.base].kind.StructKind?
    && (OwnCell(t, spec, l)
        || exists f <- t.types[spec.base].kind.fields ::
              Opens(t, f) && Names(spec, f) && CellInside(t, f.spec, l, depth - 1))
  }

  /** The field's offset, its owner's start alignment and the stride of its elements are multiples of `l`. */
  predicate Suits(t: Table, owner: TypeDef, f: Field, l: int)
    requires Grounded(t.types) && owner.kind.StructKind? && Opens(t, f)
  {
    && IsMultiple(f.offset, l) && IsMultiple(owner.StartAlignment(), l)
    && (HasSeveral(f) ==> IsMultiple(ElementAccess(t, InlineArrayOf(f.spec)).value.stride, l))
  }

  /** Every embedded field suits all cells inside it, up to this depth. */
  ghost predicate SuitsTo(t: Table, depth: nat)
    requires Grounded(t.types)
  {
    forall n, f, l, k: nat ::
      k <= depth && n in t.types && t.types[n].kind.StructKind? && f in t.types[n].kind.fields && Opens(t, f)
      && CellInside(t, f.spec, l, k)
      ==> Suits(t, t.types[n], f, l)
  }

  ghost predicate EmbeddingsSuit(t: Table)
    requires Grounded(t.types)
  {
    forall depth: nat :: SuitsTo(t, depth)
  }

  // ---------------------------------------------------------------------------------------------
  // Multiples
  // ---------------------------------------------------------------------------------------------

  lemma SumMultiple(x: int, y: int, l: int)
    requires IsMultiple(x, l) && IsMultiple(y, l)
    ensures IsMultiple(x + y, l)
  {
    SumDivides(x, y, l);
  }

  lemma DifferenceMultiple(x: int, y: int, l: int)
    requires IsMultiple(x + y, l) && IsMultiple(y, l)
    ensures IsMultiple(x, l)
  {
    ProductDivides(-1, y, l);
    SumDivides(x + y, -1 * y, l);
    assert x + y + -1 * y == x;
  }

  lemma ProductMultiple(i: int, x: int, l: int)
    requires IsMultiple(x, l)
    ensures IsMultiple(i * x, l)
  {
    ProductDivides(i, x, l);
  }

  lemma MultipleOfMultiple(x: int, y: int, l: int)
    requires IsMultiple(x, y) && IsMultiple(y, l)
    ensures IsMultiple(x, l)
  {
    ProductDivides(x / y, y, l);
    assert x == y * (x / y);
  }

  // ---------------------------------------------------------------------------------------------
  // Cells that are placed
  // ---------------------------------------------------------------------------------------------

  lemma CellAlignmentOk(t: Table, spec: TypeSpec)
    requires Grounded(t.types) && TableOk(t) && Known(t, spec)
    ensures PowerOfTwo(CellAlignment(t, spec))
  {
    hide BuiltinsPresent, AllMethodsOk, KindsInherited, ForwardOk, FieldOk, DistinctFields;
    var d := Resolve(t, spec.base).value;
    assert exists n :: n in t.types && t.types[n] == d;
    assert TypeOk(t, d);
  }

  /** A cell field is placed at a multiple of its alignment, which divides its owner's. */
  lemma CellFieldPlaced(t: Table, n: string, f: Field)
    requires Grounded(t.types) && TableOk(t) && n in t.types && t.types[n].kind.StructKind?
             && f in t.types[n].kind.fields && IsCell(t, f)
    ensures PowerOfTwo(CellAlignment(t, f.spec)) && Known(t, f.spec)
    ensures IsMultiple(f.offset, CellAlignment(t, f.spec))
    ensures IsMultiple(t.types[n].StartAlignment(), CellAlignment(t, f.spec))
  {
    hide BuiltinsPresent, AllMethodsOk, KindsInherited, ForwardOk, FieldFits, DistinctFields;
    var d := t.types[n];
    assert TypeOk(t, d) && FieldOk(t, d, f);
    StructAlignmentIs(t, d);
    SmallerDivides(d.StartAlignment(), f.alignment, d.StartAlignment());
  }

  lemma StartIsPositive(t: Table, n: string)
    requires Grounded(t.types) && TableOk(t) && n in t.types && t.types[n].kind.StructKind?
    ensures t.types[n].StartAlignment() > 0 && Object(t, n, 0) && Object(t, n, t.types[n].StartAlignment())
  {
    assert TypeOk(t, t.types[n]);
    StructAlignmentIs(t, t.types[n]);
  }

  lemma OwnCellPlaced(t: Table, n: string, l: int)
    requires Grounded(t.types) && TableOk(t) && n in t.types && t.types[n].kind.StructKind? && OwnCell(t, Simple(n), l)
    ensures IsMultiple(t.types[n].StartAlignment(), l)
  {
    hide TableOk, IsCell;
    var f :| f in t.types[n].kind.fields && IsCell(t, f) && l == CellAlignment(t, f.spec);
    CellFieldPlaced(t, n, f);
  }

  // ---------------------------------------------------------------------------------------------
  // Suiting fields keep natural alignment
  // ---------------------------------------------------------------------------------------------

  /** What holds of a place on the way: the memory it refers to suits every cell inside. */
  ghost predicate PlaceSuits(t: Table, p: Place)
    requires Grounded(t.types)
  {
    match p
    case Mem(spec, at, scale) => IsMultiple(at, CellAlignment(t, spec))
    case Ref(spec, at, scale, bound) =>
      if spec.base == "pointer" && spec.HasSingleArg() then
        (bound.Some? ==> bound.value > 0) && Known(t, spec.args[0]) ==> IsMultiple(at, CellAlignment(t, spec.args[0]))
      else if spec.base == "inline-array" && spec.HasSingleArg() then
        (bound.Some? ==> bound.value > 0) && ElementAccess(t, spec).Some?
        ==> ElementsSuit(t, spec.args[0], at, bound, ElementAccess(t, spec).value.stride)
      else MemorySuits(t, spec, at)
  }

  ghost predicate MemorySuits(t: Table, spec: TypeSpec, at: int)
    requires Grounded(t.types)
  {
    forall l, depth: nat :: CellInside(t, spec, l, depth) ==> IsMultiple(at - t.types[spec.base].BoxOffset(), l)
  }

  ghost predicate ElementsSuit(t: Table, elt: TypeSpec, at: int, bound: Option<int>, stride: int)
    requires Grounded(t.types)
  {
    && MemorySuits(t, elt, at)
    && forall l, depth: nat :: CellInside(t, elt, l, depth) && (bound.Some? ==> bound.value > 1) ==>
          IsMultiple(stride, l)
  }

  /** What is embedded in a structure is inside it. */
  lemma InsideEmbedded(t: Table, spec: TypeSpec, f: Field, l: int, depth: nat)
    requires Grounded(t.types) && spec.base in t.types && t.types[spec.base].kind.StructKind?
    requires f in t.types[spec.base].kind.fields && Opens(t, f) && Names(spec, f) && CellInside(t, f.spec, l, depth)
    ensures CellInside(t, spec, l, depth + 1)
  {
    hide OwnCell, Opens;
  }

  lemma ObjectSuits(t: Table, n: string, address: int)
    requires Grounded(t.types) && TableOk(t) && EmbeddingsSuit(t) && Object(t, n, address)
    ensures MemorySuits(t, Simple(n), address + t.types[n].BoxOffset())
  {
    hide TableOk, OwnCell, Opens;
    forall l, depth: nat | CellInside(t, Simple(n), l, depth) ensures IsMultiple(address, l) {
      if OwnCell(t, Simple(n), l) {
        OwnCellPlaced(t, n, l);
      } else {
        var f :| f in t.types[n].kind.fields && Opens(t, f) && CellInside(t, f.spec, l, depth - 1);
        assert SuitsTo(t, depth - 1);
      }
      MultipleOfMultiple(address, t.types[n].StartAlignment(), l);
    }
  }

  lemma NotStructures(t: Table)
    requires Grounded(t.types) && TableOk(t)
    ensures "pointer" in t.types ==> !t.types["pointer"].kind.StructKind?
    ensures "inline-array" in t.types ==> !t.types["inline-array"].kind.StructKind?
  {
    hide AllMethodsOk, KindsInherited, ForwardOk, TypeOk;
  }

  /** Into an embedded structure, or an array of them. */
  lemma EmbeddedSuits(t: Table, spec: TypeSpec, at: int, f: Field)
    requires Grounded(t.types) && EmbeddingsSuit(t) && MemorySuits(t, spec, at)
    requires spec.base in t.types && t.types[spec.base].kind.StructKind? && f in t.types[spec.base].kind.fields
    requires Opens(t, f) && Names(spec, f)
    ensures var at' := at - t.types[spec.base].BoxOffset() + f.offset + t.types[f.spec.base].BoxOffset();
            && MemorySuits(t, f.spec, at')
            && (f.isArray ==>
                  ElementsSuit(t, f.spec, at', ArrayBound(f), ElementAccess(t, InlineArrayOf(f.spec)).value.stride))
  {
    hide OwnCell, Opens, CellInside;
    forall l, depth: nat | CellInside(t, f.spec, l, depth)
      ensures IsMultiple(at - t.types[spec.base].BoxOffset() + f.offset, l) && Suits(t, t.types[spec.base], f, l)
    {
      assert SuitsTo(t, depth);
      InsideEmbedded(t, spec, f, l, depth);
      SumMultiple(at - t.types[spec.base].BoxOffset(), f.offset, l);
    }
  }

  /** To a cell field. */
  lemma CellSuits(t: Table, spec: TypeSpec, at: int, f: Field)
    requires Grounded(t.types) && TableOk(t) && MemorySuits(t, spec, at)
    requires spec.base in t.types && t.types[spec.base].kind.StructKind? && f in t.types[spec.base].kind.fields
    requires IsCell(t, f) && HasElements(f) && Names(spec, f)
    ensures IsMultiple(at - t.types[spec.base].BoxOffset() + f.offset, CellAlignment(t, f.spec))
  {
    hide TableOk, IsCell, MemorySuits, CellInside, IsMultiple, CellAlignment;
    CellFieldPlaced(t, spec.base, f);
    var l := CellAlignment(t, f.spec);
    OwnCellSuits(t, spec, at, l);
    SumMultiple(at - t.types[spec.base].BoxOffset(), f.offset, l);
  }

  /** To the elements of a boxed array. */
  lemma BoxedSuits(t: Table, spec: TypeSpec, at: int)
    requires Grounded(t.types) && TableOk(t) && MemorySuits(t, spec, at) && IsBoxed(spec) && Known(t, spec.args[0])
    ensures IsMultiple(at + ARRAY_DATA_OFFSET, CellAlignment(t, spec.args[0]))
  {
    hide TableOk, MemorySuits, CellInside, IsMultiple, CellAlignment;
    CellAlignmentOk(t, spec.args[0]);
    ArrayIsBasic(t);
    var l := CellAlignment(t, spec.args[0]);
    OwnCellSuits(t, spec, at, l);
    SixteenIsMultiple(l);
    SumMultiple(at - BASIC_OFFSET, STRUCTURE_ALIGNMENT, l);
  }

  lemma OwnCellSuits(t: Table, spec: TypeSpec, at: int, l: int)
    requires Grounded(t.types) && MemorySuits(t, spec, at) && OwnCell(t, spec, l)
    ensures IsMultiple(at - t.types[spec.base].BoxOffset(), l)
  {
    hide IsMultiple;
    assert CellInside(t, spec, l, 1);
  }

  lemma SixteenIsMultiple(l: int)
    requires PowerOfTwo(l)
    ensures IsMultiple(STRUCTURE_ALIGNMENT, l)
  {
  }

  lemma ArrayIsBasic(t: Table)
    requires Grounded(t.types) && TableOk(t)
    ensures "array" in t.types && t.types["array"].kind.StructKind? && t.types["array"].BoxOffset() == BASIC_OFFSET
  {
  }

  lemma FieldStepSuits(t: Table, p: Place, name: string)
    requires Grounded(t.types) && TableOk(t) && EmbeddingsSuit(t) && p.Ref? && p.scale == 0 && PlaceSuits(t, p)
             && StepField(t, p, name).Some?
    ensures StepField(t, p, name).value.scale == 0 && PlaceSuits(t, StepField(t, p, name).value)
  {
    hide TableOk, MemorySuits, EmbeddingsSuit;
    if IsBoxed(p.spec) && name == "data" {
      if Known(t, p.spec.args[0]) { BoxedSuits(t, p.spec, p.at); }
    } else {
      NamedFieldSuits(t, p, name);
    }
  }

  lemma NamedFieldSuits(t: Table, p: Place, name: string)
    requires Grounded(t.types) && TableOk(t) && EmbeddingsSuit(t) && p.Ref? && p.scale == 0 && PlaceSuits(t, p)
             && StepField(t, p, name).Some?
    requires !(IsBoxed(p.spec) && name == "data")
    ensures StepField(t, p, name).value.scale == 0 && PlaceSuits(t, StepField(t, p, name).value)
  {
    hide TableOk, MemorySuits, ElementsSuit, EmbeddingsSuit, PlaceSuits, IsCell, Opens, CellAlignment, ElementAccess;
    var f := GetFieldInfo(t, p.spec.base, name).value.field;
    assert f in t.types[p.spec.base].kind.fields && Names(p.spec, f);
    StructPlace(t, p);
    if Opens(t, f) {
      EmbeddedSuits(t, p.spec, p.at, f);
      EmbeddedPlace(t, p, name, f);
    } else if IsCell(t, f) {
      if HasElements(f) { CellSuits(t, p.spec, p.at, f); }
      CellPlace(t, p, name, f);
    } else {
      ClosedPlace(t, p, name, f);
    }
  }

  /** A place with fields is a structure. */
  lemma StructPlace(t: Table, p: Place)
    requires Grounded(t.types) && TableOk(t) && p.Ref? && PlaceSuits(t, p) && p.spec.base in t.types
             && t.types[p.spec.base].kind.StructKind?
    ensures MemorySuits(t, p.spec, p.at) && p.spec.base != "pointer" && p.spec.base != "inline-array"
  {
    hide TableOk, MemorySuits;
    NotStructures(t);
  }

  lemma EmbeddedInfoIs(t: Table, n: string, name: string, f: Field)
    requires Grounded(t.types) && GetFieldInfo(t, n, name).Some? && GetFieldInfo(t, n, name).value.field == f
             && Opens(t, f)
    ensures GetFieldInfo(t, n, name) == Some(FieldInfo(f, if f.isArray then InlineArrayOf(f.spec) else f.spec, false))
  {
    hide ElementAccess;
  }

  lemma EmbeddedPlace(t: Table, p: Place, name: string, f: Field)
    requires Grounded(t.types) && TableOk(t) && p.Ref? && p.scale == 0 && StepField(t, p, name).Some?
             && !(IsBoxed(p.spec) && name == "data")
    requires GetFieldInfo(t, p.spec.base, name).value.field == f && Opens(t, f)
    requires var at' := p.at - t.types[p.spec.base].BoxOffset() + f.offset + t.types[f.spec.base].BoxOffset();
             && MemorySuits(t, f.spec, at')
             && (f.isArray ==>
                   ElementsSuit(t, f.spec, at', ArrayBound(f), ElementAccess(t, InlineArrayOf(f.spec)).value.stride))
    ensures StepField(t, p, name).value.scale == 0 && PlaceSuits(t, StepField(t, p, name).value)
  {
    hide TableOk, MemorySuits, ElementsSuit, ElementAccess, IsMultiple, CellAlignment, GetFieldInfo;
    NotStructures(t);
    EmbeddedInfoIs(t, p.spec.base, name, f);
    assert f.spec.base != "pointer" && f.spec.base != "inline-array";
  }

  lemma CellPlace(t: Table, p: Place, name: string, f: Field)
    requires Grounded(t.types) && p.Ref? && p.scale == 0 && StepField(t, p, name).Some?
             && !(IsBoxed(p.spec) && name == "data")
    requires GetFieldInfo(t, p.spec.base, name).value.field == f && IsCell(t, f)
    requires HasElements(f) ==> IsMultiple(p.at - t.types[p.spec.base].BoxOffset() + f.offset, CellAlignment(t, f.spec))
    ensures StepField(t, p, name).value.scale == 0 && PlaceSuits(t, StepField(t, p, name).value)
  {
  }

  /** An embedded field that no path can go into: nothing is said about it. */
  lemma ClosedPlace(t: Table, p: Place, name: string, f: Field)
    requires Grounded(t.types) && TableOk(t) && p.Ref? && p.scale == 0 && StepField(t, p, name).Some?
             && !(IsBoxed(p.spec) && name == "data")
    requires GetFieldInfo(t, p.spec.base, name).value.field == f && !Opens(t, f) && !IsCell(t, f)
    ensures StepField(t, p, name).value.scale == 0 && PlaceSuits(t, StepField(t, p, name).value)
  {
    hide TableOk, MemorySuits, ElementsSuit, ElementAccess, IsMultiple, CellAlignment;
    NotStructures(t);
  }

  /** Elements that are loaded lie as close as their alignment. */
  lemma LoadedStride(t: Table, spec: TypeSpec)
    requires Grounded(t.types) && ElementAccess(t, spec).Some? && spec.base != "inline-array"
    ensures var how := ElementAccess(t, spec).value;
            && how.loads && Known(t, spec.args[0]) && how.stride == CellAlignment(t, spec.args[0])
            && (if spec.base == "array" then how.first == ARRAY_DATA_OFFSET
                  else spec.base == "pointer" && how.first == 0)
  {
  }

  lemma LoadedElementSuits(t: Table, p: Place, i: int)
    requires Grounded(t.types) && TableOk(t) && p.Ref? && p.scale == 0 && PlaceSuits(t, p)
             && Step(t, p, ConstIdx(i)).Some?
    requires p.spec.base != "inline-array"
    ensures Step(t, p, ConstIdx(i)).value.scale == 0 && PlaceSuits(t, Step(t, p, ConstIdx(i)).value)
  {
    hide TableOk, MemorySuits, CellAlignment, IsMultiple, GetDerefInfo, Known;
    var how := ElementAccess(t, p.spec).value;
    LoadedStride(t, p.spec);
    CellAlignmentOk(t, p.spec.args[0]);
    var l := CellAlignment(t, p.spec.args[0]);
    if p.spec.base == "array" { BoxedSuits(t, p.spec, p.at); }
    StepsMultiple(p.at + how.first, i, l);
  }

  lemma StepsMultiple(x: int, i: int, l: int)
    requires IsMultiple(x, l)
    ensures IsMultiple(x + i * l, l)
  {
    MultipleMod(1, l);
    ProductMultiple(i, l, l);
    SumMultiple(x, i * l, l);
  }

  /** An element of an inline array: the first one, or one of several. */
  lemma InlineElementSuits(t: Table, p: Place, i: int)
    requires Grounded(t.types) && TableOk(t) && p.Ref? && p.scale == 0 && PlaceSuits(t, p)
             && Step(t, p, ConstIdx(i)).Some?
    requires p.spec.base == "inline-array"
    ensures Step(t, p, ConstIdx(i)).value.scale == 0 && PlaceSuits(t, Step(t, p, ConstIdx(i)).value)
  {
    hide TableOk, CellInside, ElementAccess, Step, IsMultiple;
    var q := InlineElement(t, p, i);
    var stride := ElementAccess(t, p.spec).value.stride;
    assert ElementsSuit(t, q.spec, p.at, p.bound, stride);
    var box := t.types[q.spec.base].BoxOffset();
    forall l, depth: nat | CellInside(t, q.spec, l, depth) ensures IsMultiple(q.at - box, l) {
      assert IsMultiple(p.at - box, l) && (i == 0 || IsMultiple(stride, l));
      ElementMultiple(p.at - box, i, stride, l);
    }
    assert MemorySuits(t, q.spec, q.at);
  }

  lemma ElementMultiple(x: int, i: int, stride: int, l: int)
    requires IsMultiple(x, l) && (i == 0 || IsMultiple(stride, l))
    ensures IsMultiple(x + i * stride, l)
  {
    if i != 0 {
      ProductMultiple(i, stride, l);
      SumMultiple(x, i * stride, l);
    }
  }

  lemma InlineElement(t: Table, p: Place, i: int) returns (q: Place)
    requires Grounded(t.types) && TableOk(t) && p.Ref? && Step(t, p, ConstIdx(i)).Some? && p.spec.base == "inline-array"
    ensures q == Step(t, p, ConstIdx(i)).value && ElementAccess(t, p.spec).Some? && p.spec == InlineArrayOf(q.spec)
    ensures q == Ref(q.spec, p.at + i * ElementAccess(t, p.spec).value.stride, p.scale, None)
    ensures q.spec.base in t.types && t.types[q.spec.base].kind.StructKind?
    ensures q.spec.base != "pointer" && q.spec.base != "inline-array"
    ensures (p.bound.Some? ==> p.bound.value > 0) && (i != 0 && p.bound.Some? ==> p.bound.value > 1)
  {
    hide TableOk;
    NotStructures(t);
    q := Step(t, p, ConstIdx(i)).value;
  }

  lemma StepSuits(t: Table, p: Place, tok: Token)
    requires Grounded(t.types) && TableOk(t) && EmbeddingsSuit(t) && p.scale == 0 && PlaceSuits(t, p) && tok != VarIdx
             && Step(t, p, tok).Some?
    ensures Step(t, p, tok).value.scale == 0 && PlaceSuits(t, Step(t, p, tok).value)
  {
    hide TableOk, PlaceSuits, EmbeddingsSuit;
    match tok
    case FieldTok(name) => FieldStepSuits(t, p, name);
    case ConstIdx(i) => if p.spec.base == "inline-array" { InlineElementSuits(t, p, i); }
        else { LoadedElementSuits(t, p, i); }
  }

  lemma {:induction false} PathSuits(t: Table, p: Place, path: seq<Token>)
    requires Grounded(t.types) && TableOk(t) && EmbeddingsSuit(t) && p.scale == 0 && PlaceSuits(t, p)
             && ConstantPath(path)
    requires Replay(t, p, path).Some?
    ensures PlaceSuits(t, Replay(t, p, path).value)
    decreases |path|
  {
    hide TableOk, PlaceSuits, EmbeddingsSuit, Step;
    if path != [] {
      StepSuits(t, p, path[0]);
      PathSuits(t, Step(t, p, path[0]).value, path[1..]);
    }
  }

  lemma SuitingIsAligned(t: Table)
    requires Grounded(t.types) && TableOk(t) && EmbeddingsSuit(t)
    ensures NaturallyAligned(t)
  {
    hide TableOk, EmbeddingsSuit, ConstantPath;
    forall n, address, path, cell, at |
      Object(t, n, address) && ConstantPath(path)
      && Replay(t, Ref(Simple(n), address + t.types[n].BoxOffset(), 0, None), path) == Some(Mem(cell, at, 0))
      ensures IsMultiple(at, CellAlignment(t, cell))
    {
      ObjectPlace(t, n, address);
      PathSuits(t, Ref(Simple(n), address + t.types[n].BoxOffset(), 0, None), path);
    }
  }

  lemma ObjectPlace(t: Table, n: string, address: int)
    requires Grounded(t.types) && TableOk(t) && EmbeddingsSuit(t) && Object(t, n, address)
    ensures PlaceSuits(t, Ref(Simple(n), address + t.types[n].BoxOffset(), 0, None))
  {
    hide TableOk, EmbeddingsSuit, MemorySuits;
    NotStructures(t);
    ObjectSuits(t, n, address);
  }

  // ---------------------------------------------------------------------------------------------
  // Natural alignment makes fields suit
  // ---------------------------------------------------------------------------------------------

  /** The tokens that lead into an embedded field: to the structure, or to an element. */
  function Into(f: Field, i: int): (path: seq<Token>)
    ensures ConstantPath(path)
  {
    if f.isArray then [FieldTok(f.name), ConstIdx(i)] else [FieldTok(f.name)]
  }

  function Offset(t: Table, f: Field, i: int): int
    requires Grounded(t.types) && Opens(t, f)
  {
    f.offset + if f.isArray then i * ElementAccess(t, InlineArrayOf(f.spec)).value.stride else 0
  }

  lemma {:induction false} ReplayAppend(t: Table, p: Place, a: seq<Token>, b: seq<Token>)
    requires Grounded(t.types)
    ensures Replay(t, p, a + b) == match Replay(t, p, a) case None => None case Some(q) => Replay(t, q, b)
    decreases |a|
  {
    hide Step;
    if a == [] {
      assert a + b == b;
    } else {
      assert (a + b)[1..] == a[1..] + b;
      match Step(t, p, a[0])
      case None =>
      case Some(q) => ReplayAppend(t, q, a[1..], b);
    }
  }

  lemma IntoLeads(t: Table, spec: TypeSpec, at: int, f: Field, i: int)
    requires Grounded(t.types) && TableOk(t) && spec.base in t.types && t.types[spec.base].kind.StructKind?
             && f in t.types[spec.base].kind.fields
    requires Opens(t, f) && Names(spec, f) && (i == 0 || (i == 1 && HasSeveral(f)))
    ensures var box, box' := t.types[spec.base].BoxOffset(), t.types[f.spec.base].BoxOffset();
            Replay(t, Ref(spec, at, 0, None), Into(f, i))
                == Some(Ref(f.spec, at - box + Offset(t, f, i) + box', 0, None))
  {
    hide TableOk, ElementAccess, Step;
    var p := Ref(spec, at, 0, None);
    var start := at - t.types[spec.base].BoxOffset() + f.offset + t.types[f.spec.base].BoxOffset();
    FieldLeads(t, spec, at, f);
    if f.isArray {
      var q := Ref(InlineArrayOf(f.spec), start, 0, ArrayBound(f));
      ElementLeads(t, q, f.spec, i);
      TwoSteps(t, p, FieldTok(f.name), q, ConstIdx(i));
    } else {
      assert Into(f, i)[1..] == [];
    }
  }

  lemma TwoSteps(t: Table, p: Place, a: Token, q: Place, b: Token)
    requires Grounded(t.types) && Step(t, p, a) == Some(q) && Step(t, q, b).Some?
    ensures Replay(t, p, [a, b]) == Step(t, q, b)
  {
    hide Step;
    assert [a, b][1..] == [b] && [b][1..] == [];
    assert Replay(t, q, [b]) == Step(t, q, b);
  }

  lemma FieldLeads(t: Table, spec: TypeSpec, at: int, f: Field)
    requires Grounded(t.types) && TableOk(t) && spec.base in t.types && t.types[spec.base].kind.StructKind?
             && f in t.types[spec.base].kind.fields
    requires Opens(t, f) && Names(spec, f)
    ensures var start := at - t.types[spec.base].BoxOffset() + f.offset + t.types[f.spec.base].BoxOffset();
            Step(t, Ref(spec, at, 0, None), FieldTok(f.name))
            == Some(Ref(if f.isArray then InlineArrayOf(f.spec) else f.spec, start, 0, ArrayBound(f)))
  {
    hide TableOk, ElementAccess, GetFieldInfo;
    FieldIsKnown(t, spec.base, f);
    EmbeddedInfoIs(t, spec.base, f.name, f);
    NotStructures(t);
  }

  lemma FieldIsKnown(t: Table, n: string, f: Field)
    requires Grounded(t.types) && TableOk(t) && n in t.types && t.types[n].kind.StructKind?
             && f in t.types[n].kind.fields
    ensures FindField(t.types[n].kind.fields, f.name) == Some(f) && Known(t, f.spec)
    ensures GetFieldInfo(t, n, f.name).Some? && GetFieldInfo(t, n, f.name).value.field == f
  {
    hide BuiltinsPresent, AllMethodsOk, KindsInherited, ForwardOk, FieldFits, FieldPlaced;
    assert TypeOk(t, t.types[n]) && FieldOk(t, t.types[n], f);
    var i :| 0 <= i < |t.types[n].kind.fields| && t.types[n].kind.fields[i] == f;
    FindDistinct(t.types[n].kind.fields, i);
  }

  lemma ElementLeads(t: Table, q: Place, elt: TypeSpec, i: int)
    requires Grounded(t.types) && q.Ref? && q.spec == InlineArrayOf(elt) && ElementAccess(t, q.spec).Some?
    requires q.bound.Some? ==> 0 <= i < q.bound.value
    ensures Step(t, q, ConstIdx(i)) == Some(Ref(elt, q.at + i * ElementAccess(t, q.spec).value.stride, q.scale, None))
  {
  }

  /** The path leads from any such structure to a cell `rel` bytes from the start of its memory. */
  ghost predicate LeadsToCell(t: Table, spec: TypeSpec, path: seq<Token>, cell: TypeSpec, rel: int)
    requires Grounded(t.types)
  {
    && spec.base in t.types && t.types[spec.base].kind.StructKind? && ConstantPath(path)
    && forall at ::
          Replay(t, Ref(spec, at, 0, None), path) == Some(Mem(cell, at - t.types[spec.base].BoxOffset() + rel, 0))
  }

  /** One step, or two through an array, to a cell of the structure itself. */
  lemma OwnCellPath(t: Table, spec: TypeSpec, l: int) returns (path: seq<Token>, cell: TypeSpec, rel: int)
    requires Grounded(t.types) && TableOk(t) && OwnCell(t, spec, l)
    ensures LeadsToCell(t, spec, path, cell, rel) && CellAlignment(t, cell) == l && IsMultiple(rel, l)
  {
    hide TableOk, IsMultiple, CellAlignment, IsCell, LeadsToCell;
    if IsBoxed(spec) && Known(t, spec.args[0]) && l == CellAlignment(t, spec.args[0]) {
      path, cell, rel := [ConstIdx(0)], spec.args[0], STRUCTURE_ALIGNMENT;
      CellAlignmentOk(t, cell);
      SixteenIsMultiple(l);
      BoxedPath(t, spec);
    } else {
      var f :| f in t.types[spec.base].kind.fields && IsCell(t, f) && HasElements(f) && Names(spec, f)
               && l == CellAlignment(t, f.spec);
      CellFieldPlaced(t, spec.base, f);
      path, cell, rel := CellTokens(f), f.spec, f.offset;
      CellFieldPath(t, spec, f);
    }
  }

  function CellTokens(f: Field): seq<Token>
  {
    if f.isArray then [FieldTok(f.name), ConstIdx(0)] else [FieldTok(f.name)]
  }

  lemma BoxedPath(t: Table, spec: TypeSpec)
    requires Grounded(t.types) && TableOk(t) && IsBoxed(spec) && Known(t, spec.args[0])
    ensures LeadsToCell(t, spec, [ConstIdx(0)], spec.args[0], STRUCTURE_ALIGNMENT)
  {
    hide TableOk, Step;
    ArrayIsBasic(t);
    forall at
      ensures Replay(t, Ref(spec, at, 0, None), [ConstIdx(0)])
          == Some(Mem(spec.args[0], at - BASIC_OFFSET + STRUCTURE_ALIGNMENT, 0))
    {
      BoxedLeads(t, spec, at);
      OneStep(t, Ref(spec, at, 0, None), ConstIdx(0));
    }
  }

  lemma CellFieldPath(t: Table, spec: TypeSpec, f: Field)
    requires Grounded(t.types) && TableOk(t)
    requires spec.base in t.types && t.types[spec.base].kind.StructKind? && f in t.types[spec.base].kind.fields
    requires IsCell(t, f) && HasElements(f) && Names(spec, f)
    ensures LeadsToCell(t, spec, CellTokens(f), f.spec, f.offset)
  {
    hide TableOk, Step, Replay, IsCell;
    forall at
      ensures Replay(t, Ref(spec, at, 0, None), CellTokens(f))
          == Some(Mem(f.spec, at - t.types[spec.base].BoxOffset() + f.offset, 0))
    {
      CellLeads(t, spec, at, f);
    }
  }

  lemma OneStep(t: Table, p: Place, tok: Token)
    requires Grounded(t.types)
    ensures Replay(t, p, [tok]) == Step(t, p, tok)
  {
    hide Step;
    assert [tok][1..] == [];
  }

  lemma BoxedLeads(t: Table, spec: TypeSpec, at: int)
    requires Grounded(t.types) && TableOk(t) && IsBoxed(spec) && Known(t, spec.args[0])
    ensures Step(t, Ref(spec, at, 0, None), ConstIdx(0)) == Some(Mem(spec.args[0], at + ARRAY_DATA_OFFSET, 0))
  {
    hide TableOk;
    HasPointers(t);
  }

  /** Names that are only declared ahead stand for structures. */
  lemma InlineCellIsValue(t: Table, f: Field)
    requires TableOk(t) && IsCell(t, f) && f.isInline
    ensures f.spec.base in t.types && !t.types[f.spec.base].kind.StructKind?
  {
    hide BuiltinsPresent, TypeOk, AllMethodsOk, KindsInherited;
  }

  lemma CellLeads(t: Table, spec: TypeSpec, at: int, f: Field)
    requires Grounded(t.types) && TableOk(t)
    requires spec.base in t.types && t.types[spec.base].kind.StructKind? && f in t.types[spec.base].kind.fields
    requires IsCell(t, f) && HasElements(f) && Names(spec, f)
    ensures Replay(t, Ref(spec, at, 0, None), CellTokens(f))
        == Some(Mem(f.spec, at - t.types[spec.base].BoxOffset() + f.offset, 0))
  {
    hide TableOk, Step;
    CellStep(t, spec, at, f);
    FieldIsKnown(t, spec.base, f);
    var p, start := Ref(spec, at, 0, None), at - t.types[spec.base].BoxOffset() + f.offset;
    if f.isArray {
      var q := Ref(PointerTo(f.spec), start, 0, ArrayBound(f));
      PointerLeads(t, q, f.spec);
      TwoSteps(t, p, FieldTok(f.name), q, ConstIdx(0));
    } else {
      OneStep(t, p, FieldTok(f.name));
    }
  }

  lemma CellStep(t: Table, spec: TypeSpec, at: int, f: Field)
    requires Grounded(t.types) && TableOk(t)
    requires spec.base in t.types && t.types[spec.base].kind.StructKind? && f in t.types[spec.base].kind.fields
    requires IsCell(t, f) && Names(spec, f)
    ensures var start := at - t.types[spec.base].BoxOffset() + f.offset;
            Step(t, Ref(spec, at, 0, None), FieldTok(f.name))
            == Some(if f.isArray then Ref(PointerTo(f.spec), start, 0, ArrayBound(f)) else Mem(f.spec, start, 0))
  {
    hide TableOk, GetFieldInfo, ElementAccess, IsCell, Known;
    CellInfoIs(t, spec.base, f);
    if f.isInline { InlineCellIsValue(t, f); }
  }

  lemma CellInfoIs(t: Table, n: string, f: Field)
    requires Grounded(t.types) && TableOk(t)
    requires n in t.types && t.types[n].kind.StructKind? && f in t.types[n].kind.fields && IsCell(t, f)
    ensures GetFieldInfo(t, n, f.name)
        == Some(FieldInfo(f, if f.isArray then PointerTo(f.spec) else f.spec, !f.isArray))
    ensures Known(t, f.spec) && (f.isInline && f.spec.base in t.types ==> !t.types[f.spec.base].kind.NullKind?)
  {
    hide TableOk;
    FieldIsKnown(t, n, f);
  }

  lemma HasPointers(t: Table)
    requires TableOk(t)
    ensures "float" in t.types && "pointer" in t.types
  {
    hide TypeOk, AllMethodsOk, KindsInherited, ForwardOk;
  }

  lemma PointerLeads(t: Table, q: Place, elt: TypeSpec)
    requires Grounded(t.types) && TableOk(t) && Known(t, elt)
    requires q.Ref? && q.spec == PointerTo(elt) && (q.bound.Some? ==> q.bound.value > 0)
    ensures Step(t, q, ConstIdx(0)) == Some(Mem(elt, q.at, q.scale))
  {
    hide TableOk;
    HasPointers(t);
  }

  /** To every cell inside a structure leads a path, and there it is at a multiple of its alignment. */
  lemma {:induction false} CellPath(t: Table, spec: TypeSpec, l: int, depth: nat)
      returns (path: seq<Token>, cell: TypeSpec, rel: int)
    requires Grounded(t.types) && TableOk(t) && CellInside(t, spec, l, depth) && (depth > 0 ==> SuitsTo(t, depth - 1))
    ensures LeadsToCell(t, spec, path, cell, rel) && CellAlignment(t, cell) == l && IsMultiple(rel, l)
    decreases depth
  {
    hide TableOk, IsMultiple, OwnCell, Opens, CellAlignment, LeadsToCell;
    if OwnCell(t, spec, l) {
      path, cell, rel := OwnCellPath(t, spec, l);
    } else {
      var f :| f in t.types[spec.base].kind.fields && Opens(t, f) && Names(spec, f)
          && CellInside(t, f.spec, l, depth - 1);
      var inner, rel';
      inner, cell, rel' := CellPath(t, f.spec, l, depth - 1);
      assert Suits(t, t.types[spec.base], f, l);
      path, rel := Into(f, 0) + inner, Offset(t, f, 0) + rel';
      SumMultiple(f.offset, rel', l);
      IntoThenInner(t, spec, f, 0, inner, cell, rel');
    }
  }

  lemma IntoThenInner(t: Table, spec: TypeSpec, f: Field, i: int, inner: seq<Token>, cell: TypeSpec, rel: int)
    requires Grounded(t.types) && TableOk(t)
    requires spec.base in t.types && t.types[spec.base].kind.StructKind? && f in t.types[spec.base].kind.fields
    requires Opens(t, f) && Names(spec, f) && (i == 0 || (i == 1 && HasSeveral(f)))
             && LeadsToCell(t, f.spec, inner, cell, rel)
    ensures LeadsToCell(t, spec, Into(f, i) + inner, cell, Offset(t, f, i) + rel)
  {
    hide TableOk, Opens, Offset, Into, Replay;
    var path := Into(f, i) + inner;
    forall at
      ensures Replay(t, Ref(spec, at, 0, None), path)
           == Some(Mem(cell, at - t.types[spec.base].BoxOffset() + (Offset(t, f, i) + rel), 0))
    {
      IntoLeads(t, spec, at, f, i);
      ReplayAppend(t, Ref(spec, at, 0, None), Into(f, i), inner);
    }
  }

  /** Where the cell is in an object of the owner's type. */
  lemma ObjectCell(t: Table, n: string, address: int, f: Field, i: int, inner: seq<Token>, cell: TypeSpec, rel: int)
    requires Grounded(t.types) && TableOk(t) && NaturallyAligned(t) && Object(t, n, address)
    requires f in t.types[n].kind.fields && Opens(t, f) && (i == 0 || (i == 1 && HasSeveral(f)))
    requires LeadsToCell(t, f.spec, inner, cell, rel)
    ensures IsMultiple(address + Offset(t, f, i) + rel, CellAlignment(t, cell))
  {
    hide TableOk, Opens, Offset, IsMultiple, CellAlignment, Replay, Into, ConstantPath;
    IntoThenInner(t, Simple(n), f, i, inner, cell, rel);
    CellIsAligned(t, n, address, Into(f, i) + inner, cell, Offset(t, f, i) + rel);
  }

  lemma CellIsAligned(t: Table, n: string, address: int, path: seq<Token>, cell: TypeSpec, rel: int)
    requires Grounded(t.types) && NaturallyAligned(t) && Object(t, n, address)
             && LeadsToCell(t, Simple(n), path, cell, rel)
    ensures IsMultiple(address + rel, CellAlignment(t, cell))
  {
    hide IsMultiple, CellAlignment, Replay, ConstantPath;
    var box := t.types[n].BoxOffset();
    assert Replay(t, Ref(Simple(n), address + box, 0, None), path) == Some(Mem(cell, address + box - box + rel, 0));
  }

  lemma {:induction false} AlignedSuitsTo(t: Table, depth: nat)
    requires Grounded(t.types) && TableOk(t) && NaturallyAligned(t)
    ensures SuitsTo(t, depth)
  {
    hide TableOk, NaturallyAligned, Opens, CellInside, Suits;
    if depth > 0 { AlignedSuitsTo(t, depth - 1); }
    forall n, f, l, k: nat |
      k <= depth && n in t.types && t.types[n].kind.StructKind? && f in t.types[n].kind.fields && Opens(t, f)
      && CellInside(t, f.spec, l, k)
      ensures Suits(t, t.types[n], f, l)
    {
      if k == depth { AlignedFieldSuits(t, n, f, l, k); }
    }
  }

  /** An object at 0, one at its start alignment, and the second element show the three multiples. */
  lemma AlignedFieldSuits(t: Table, n: string, f: Field, l: int, depth: nat)
    requires Grounded(t.types) && TableOk(t) && NaturallyAligned(t) && (depth > 0 ==> SuitsTo(t, depth - 1))
    requires n in t.types && t.types[n].kind.StructKind? && f in t.types[n].kind.fields && Opens(t, f)
    requires CellInside(t, f.spec, l, depth)
    ensures Suits(t, t.types[n], f, l)
  {
    hide TableOk, NaturallyAligned, CellInside, SuitsTo, CellAlignment, LeadsToCell, ElementAccess, IsMultiple, Suits;
    var inner, cell, rel := CellPath(t, f.spec, l, depth);
    StartIsPositive(t, n);
    var start := t.types[n].StartAlignment();
    ObjectCell(t, n, 0, f, 0, inner, cell, rel);
    ObjectCell(t, n, start, f, 0, inner, cell, rel);
    if HasSeveral(f) { ObjectCell(t, n, 0, f, 1, inner, cell, rel); }
    MultiplesSuit(t, n, f, l, rel);
  }

  lemma MultiplesSuit(t: Table, n: string, f: Field, l: int, rel: int)
    requires Grounded(t.types) && n in t.types && t.types[n].kind.StructKind? && Opens(t, f)
    requires IsMultiple(rel, l) && IsMultiple(Offset(t, f, 0) + rel, l)
             && IsMultiple(t.types[n].StartAlignment() + Offset(t, f, 0) + rel, l)
             && (HasSeveral(f) ==> IsMultiple(Offset(t, f, 1) + rel, l))
    ensures Suits(t, t.types[n], f, l)
  {
    hide IsMultiple, ElementAccess;
    var start := t.types[n].StartAlignment();
    DifferenceMultiple(f.offset, rel, l);
    DifferenceMultiple(start, f.offset + rel, l);
    if HasSeveral(f) {
      var stride := ElementAccess(t, InlineArrayOf(f.spec)).value.stride;
      DifferenceMultiple(stride, f.offset + rel, l);
    }
  }

  /**
   Natural alignment, exactly: on a table built by deftypes all cells of all objects are aligned if and only if
   each embedded field suits the alignment of every cell inside what it embeds. The fields that hold cells
   themselves always do.
   */
  lemma AlignedExactly(t: Table)
    requires TableOk(t)
    ensures NaturallyAligned(t) <==> EmbeddingsSuit(t)
  {
    hide CellInside, Opens;
    if NaturallyAligned(t) {
      forall depth: nat ensures SuitsTo(t, depth) { AlignedSuitsTo(t, depth); }
    }
    if EmbeddingsSuit(t) { SuitingIsAligned(t); }
  }
}

/**
 How `add_field_to_type` lays out a structure, and the alignment that the layout keeps through
 any depth of embedded fields and arrays.
 */
module Layout {
  import opened Arithmetic
  import opened TypeTable
  import opened Wrappers
  import opened FieldPaths

  /** A field as a deftype asks for it; -1 stands for "not given" in both numbers, as in the source. */
  datatype FieldDecl = FieldDecl(name: string, spec: TypeSpec, isInline: bool, dynamic: bool, arraySize: int,
                                 offset: int, skip: bool, offsetAssert: Option<int>)

  function NewField(decl: FieldDecl): Field {
    Field(decl.name, decl.spec, -1, decl.isInline, decl.dynamic, decl.dynamic || decl.arraySize != -1,
          if decl.arraySize != -1 then decl.arraySize else 0, -1, decl.skip)
  }

  /** Where the field goes: the next aligned place, or the place asked for if that is aligned. */
  function Placement(size: int, wanted: int, alignment: int): Option<int>
    requires alignment > 0
  {
    if wanted == -1 then Some(AlignUp(size, alignment))
    else if AlignUp(wanted, alignment) == wanted then Some(wanted)
    else None
  }

  /** The structure with the field added, and where the field went. */
  function AddField(t: Table, k: Kind, decl: FieldDecl): (r: Result<(Kind, int)>)
    requires k.StructKind?
    ensures r.Ok? ==> r.value.0.StructKind?
  {
    var f := NewField(decl);
    if FindField(k.fields, decl.name).Some? then Thrown
    else if AlignmentInType(t, f).None? || AlignmentInType(t, f).value <= 0 then Thrown
    else
      var alignment := AlignmentInType(t, f).value;
      match Placement(k.size, decl.offset, alignment)
      case None => Thrown
      case Some(offset) =>
        match SizeInType(t, f)
        case None => Thrown
        case Some(size) =>
          var placed := f.(offset := offset, alignment := alignment);
          Ok((k.(fields := k.fields + [placed], dynamic := k.dynamic
                 || decl.dynamic, size := Max(k.size, offset + size)), offset))
  }

  /** The field list of a deftype, in order, each with its offset assertion. */
  function AddFields(t: Table, k: Kind, decls: seq<FieldDecl>): (r: Result<Kind>)
    requires k.StructKind?
    ensures r.Ok? ==> r.value.StructKind?
    decreases |decls|
  {
    if decls == [] then Ok(k)
    else
      match AddField(t, k, decls[0])
      case Thrown => Thrown
      case Ok((k', offset)) =>
        if decls[0].offsetAssert.Some? && decls[0].offsetAssert.value != offset then Thrown
        else AddFields(t, k', decls[1..])
  }

  /** Field ends never lie past the size that the structure has reached. */
  ghost predicate EndsCovered(t: Table, k: Kind)
    requires k.StructKind?
  {
    forall f <- k.fields :: EndsWithin(t, f, k.size)
  }

  /** A field placed without an override starts at or after the end of every earlier field. */
  lemma NewFieldIsPastOthers(t: Table, k: Kind, decl: FieldDecl)
    requires k.StructKind? && EndsCovered(t, k) && decl.offset == -1 && AddField(t, k, decl).Ok?
    ensures forall f <- k.fields :: f.offset + SizeInType(t, f).value <= AddField(t, k, decl).value.1
    ensures EndsCovered(t, AddField(t, k, decl).value.0)
  {
    var alignment := AlignmentInType(t, NewField(decl)).value;
    AlignUpIsLeast(k.size, alignment, k.size);
    var placed := NewField(decl).(offset := AddField(t, k, decl).value.1, alignment := alignment);
    assert SizeInType(t, placed) == SizeInType(t, NewField(decl));
  }

  // ---------------------------------------------------------------------------------------------
  // Alignment
  // ---------------------------------------------------------------------------------------------

  predicate PowerOfTwo(x: int) { x == 1 || x == 2 || x == 4 || x == 8 || x == 16 }

  /** What a cell of this type must be aligned to: its own size, or a pointer's. */
  function CellAlignment(t: Table, spec: TypeSpec): int {
    match Resolve(t, spec.base)
    case Some(d) => if d.kind.ValueKind? then d.kind.size else POINTER_SIZE
    case None => 1
  }

  /** The strictest alignment any field of the type asks for. */
  function InnerAlignment(d: TypeDef): int
    requires !d.kind.NullKind?
  {
    if d.kind.ValueKind? then d.kind.size else MaxAlignment(d.kind.fields, 1)
  }

  /** A field that holds a cell or several, and no embedded structure. */
  predicate IsCell(t: Table, f: Field) {
    !f.isInline || (Resolve(t, f.spec.base).Some? && !Resolve(t, f.spec.base).value.kind.StructKind?)
  }

  /** What `add_field_to_type` records of every field. */
  ghost predicate FieldPlaced(t: Table, f: Field) {
    && PowerOfTwo(f.alignment) && f.offset % f.alignment == 0
    && (IsCell(t, f) ==> f.alignment == CellAlignment(t, f.spec))
  }

  /** The same, and for an embedded structure the alignment that its own definition asks for. */
  ghost predicate FieldAligned(t: Table, f: Field) {
    && FieldPlaced(t, f)
    && (f.isInline ==>
          && f.spec.base in t.types && !t.types[f.spec.base].kind.NullKind?
          && f.alignment == t.types[f.spec.base].StartAlignment())
  }

  ghost predicate AllAligned(t: Table) {
    && Grounded(t.types)
    && (forall n <- t.types :: t.types[n].kind.ValueKind? ==> PowerOfTwo(t.types[n].kind.size))
    && (forall n <- t.types :: t.types[n].kind.StructKind? ==> forall f <- t.types[n].kind.fields :: FieldAligned(t, f))
    && ("pointer" in t.types ==> !t.types["pointer"].kind.StructKind?)
    && ("inline-array" in t.types ==> !t.types["inline-array"].kind.StructKind?)
    && "array" in t.types && t.types["array"].kind.StructKind?
    && t.types["array"].kind.basic && !t.types["array"].kind.packed && t.types["array"].kind.dynamic
  }

  lemma {:induction false} MaxAlignmentIs(fields: seq<Field>, least: int)
    requires PowerOfTwo(least) && forall f <- fields :: PowerOfTwo(f.alignment)
    ensures PowerOfTwo(MaxAlignment(fields, least))
  {
    if fields != [] {
      var init, last := fields[..|fields| - 1], fields[|fields| - 1];
      assert fields == init + [last];
      assert last in fields && forall f <- init :: f in fields;
      MaxAlignmentIs(init, least);
    }
  }

  lemma {:induction false} MaxAlignmentMonotone(fields: seq<Field>, a: int, b: int)
    requires a <= b
    ensures MaxAlignment(fields, a) <= MaxAlignment(fields, b)
  {
    if fields != [] { MaxAlignmentMonotone(fields[..|fields| - 1], a, b); }
  }

  lemma SmallerDivides(x: int, a: int, b: int)
    requires PowerOfTwo(a) && PowerOfTwo(b) && a <= b && x % b == 0
    ensures x % a == 0
  {
  }

  lemma SumDivides(x: int, y: int, a: int)
    requires a > 0 && x % a == 0 && y % a == 0
    ensures (x + y) % a == 0
  {
    assert x == a * (x / a) && y == a * (y / a);
    assert x + y == a * (x / a + y / a);
    MultipleMod(x / a + y / a, a);
  }

  lemma ProductDivides(i: int, x: int, a: int)
    requires a > 0 && x % a == 0
    ensures (i * x) % a == 0
  {
    var q := x / a;
    assert x == a * q;
    assert i * x == a * (i * q);
    MultipleMod(i * q, a);
  }

  /** The alignments of a type: inner divides the stride's and the start's. */
  lemma AlignmentsNest(t: Table, n: string)
    requires AllAligned(t) && n in t.types && t.types[n].kind.StructKind?
    ensures var d := t.types[n];
            && PowerOfTwo(InnerAlignment(d)) && PowerOfTwo(d.StartAlignment()) && PowerOfTwo(d.StrideAlignment())
            && InnerAlignment(d) <= d.StartAlignment() && InnerAlignment(d) <= d.StrideAlignment()
            && forall f <- d.kind.fields :: PowerOfTwo(f.alignment) && f.alignment <= InnerAlignment(d)
  {
    var fields := t.types[n].kind.fields;
    forall f <- fields ensures PowerOfTwo(f.alignment) { assert FieldAligned(t, f); }
    StartCoversFields(t.types[n]);
  }

  lemma StartCoversFields(d: TypeDef)
    requires d.kind.StructKind? && forall f <- d.kind.fields :: PowerOfTwo(f.alignment)
    ensures PowerOfTwo(InnerAlignment(d)) && PowerOfTwo(d.StartAlignment()) && PowerOfTwo(d.StrideAlignment())
    ensures InnerAlignment(d) <= d.StartAlignment() && InnerAlignment(d) <= d.StrideAlignment()
    ensures forall f <- d.kind.fields :: f.alignment <= InnerAlignment(d)
  {
    MaxAlignmentBounds(d.kind.fields, 1);
    MaxAlignmentIs(d.kind.fields, 1);
    MaxAlignmentIs(d.kind.fields, 8);
    MaxAlignmentMonotone(d.kind.fields, 1, 8);
  }

  /** The start of the memory a place refers to, and the stride of a variable index, are aligned for what is inside. */
  ghost predicate PlaceAligned(t: Table, p: Place)
    requires AllAligned(t)
  {
    match p
    case Mem(spec, at, scale) => at % CellAlignment(t, spec) == 0 && scale % CellAlignment(t, spec) == 0
    case Ref(spec, at, scale, _) =>
      if spec.base == "pointer" && spec.HasSingleArg() then
        PowerOfTwo(CellAlignment(t, spec.args[0]))
        ==> at % CellAlignment(t, spec.args[0]) == 0 && scale % CellAlignment(t, spec.args[0]) == 0
      else if spec.base == "inline-array" && spec.HasSingleArg() then MemoryAligned(t, spec.args[0].base, at, scale)
      else
        && MemoryAligned(t, spec.base, at, scale)
        && (spec.base == "array" ==> (at - BASIC_OFFSET) % STRUCTURE_ALIGNMENT == 0 && scale % STRUCTURE_ALIGNMENT == 0)
  }

  ghost predicate MemoryAligned(t: Table, name: string, at: int, scale: int)
    requires AllAligned(t)
  {
    name in t.types && t.types[name].kind.StructKind? ==>
      (AlignmentsNest(t, name);
       (at - t.types[name].BoxOffset()) % InnerAlignment(t.types[name]) == 0
           && scale % InnerAlignment(t.types[name]) == 0)
  }

  lemma CellAlignmentIs(t: Table, spec: TypeSpec)
    requires AllAligned(t)
    ensures PowerOfTwo(CellAlignment(t, spec))
  {
    match Resolve(t, spec.base)
    case None =>
    case Some(d) =>
      if d.kind.ValueKind? { assert exists n :: n in t.types && t.types[n] == d; }
  }

  lemma BoxedDataAligned(t: Table, p: Place, at: int)
    requires AllAligned(t) && p.Ref? && PlaceAligned(t, p) && p.spec.base == "array" && p.spec.HasSingleArg()
    requires at == p.at + ARRAY_DATA_OFFSET
    ensures PowerOfTwo(CellAlignment(t, p.spec.args[0]))
    ensures at % CellAlignment(t, p.spec.args[0]) == 0 && p.scale % CellAlignment(t, p.spec.args[0]) == 0
  {
    CellAlignmentIs(t, p.spec.args[0]);
    SumDivides(p.at - BASIC_OFFSET, STRUCTURE_ALIGNMENT, STRUCTURE_ALIGNMENT);
    SmallerDivides(at, CellAlignment(t, p.spec.args[0]), STRUCTURE_ALIGNMENT);
    SmallerDivides(p.scale, CellAlignment(t, p.spec.args[0]), STRUCTURE_ALIGNMENT);
  }

  /** The memory of a field is aligned as the field asks. */
  lemma FieldMemoryAligned(t: Table, p: Place, f: Field, start: int)
    requires AllAligned(t) && p.Ref? && PlaceAligned(t, p)
    requires p.spec.base in t.types && t.types[p.spec.base].kind.StructKind? && f in t.types[p.spec.base].kind.fields
    requires start == p.at - t.types[p.spec.base].BoxOffset() + f.offset
    ensures FieldAligned(t, f) && start % f.alignment == 0 && p.scale % f.alignment == 0
  {
    var d := t.types[p.spec.base];
    AlignmentsNest(t, p.spec.base);
    assert FieldAligned(t, f);
    assert MemoryAligned(t, p.spec.base, p.at, p.scale);
    SmallerDivides(p.at - d.BoxOffset(), f.alignment, InnerAlignment(d));
    SmallerDivides(p.scale, f.alignment, InnerAlignment(d));
    SumDivides(p.at - d.BoxOffset(), f.offset, f.alignment);
  }

  lemma FieldStepAligned(t: Table, p: Place, name: string)
    requires AllAligned(t) && p.Ref? && PlaceAligned(t, p) && StepField(t, p, name).Some?
    ensures PlaceAligned(t, StepField(t, p, name).value)
  {
    if p.spec.base == "array" && p.spec.HasSingleArg() && name == "data" {
      BoxedDataAligned(t, p, p.at + ARRAY_DATA_OFFSET);
    } else {
      var f := GetFieldInfo(t, p.spec.base, name).value.field;
      var start := p.at - t.types[p.spec.base].BoxOffset() + f.offset;
      FieldMemoryAligned(t, p, f, start);
      EmbeddedAligned(t, f, start, p.scale);
      FieldPlaceAligned(t, p, name, f, start);
    }
  }

  lemma FieldPlaceAligned(t: Table, p: Place, name: string, f: Field, start: int)
    requires AllAligned(t) && p.Ref? && StepField(t, p, name).Some?
    requires !(p.spec.base == "array" && p.spec.HasSingleArg() && name == "data")
    requires f == GetFieldInfo(t, p.spec.base, name).value.field
             && start == p.at - t.types[p.spec.base].BoxOffset() + f.offset
    requires FieldAligned(t, f) && start % f.alignment == 0 && p.scale % f.alignment == 0
    requires f.isInline && t.types[f.spec.base].kind.StructKind? ==>
               MemoryAligned(t, f.spec.base, start + t.types[f.spec.base].BoxOffset(), p.scale)
    ensures PlaceAligned(t, StepField(t, p, name).value)
  {
    CellAlignmentIs(t, f.spec);
  }

  /** Memory aligned for a field is aligned for what the field embeds. */
  lemma EmbeddedAligned(t: Table, f: Field, start: int, scale: int)
    requires AllAligned(t) && FieldAligned(t, f) && start % f.alignment == 0 && scale % f.alignment == 0
    ensures f.isInline && t.types[f.spec.base].kind.StructKind? ==>
              MemoryAligned(t, f.spec.base, start + t.types[f.spec.base].BoxOffset(), scale)
  {
    if f.isInline && t.types[f.spec.base].kind.StructKind? {
      var d := t.types[f.spec.base];
      AlignmentsNest(t, f.spec.base);
      SmallerDivides(start, InnerAlignment(d), f.alignment);
      SmallerDivides(scale, InnerAlignment(d), f.alignment);
    }
  }

  lemma LoadedElementAligned(t: Table, p: Place, i: int, at: int)
    requires AllAligned(t) && p.Ref? && PlaceAligned(t, p) && ElementAccess(t, p.spec).Some?
             && ElementAccess(t, p.spec).value.loads
    requires at == p.at + ElementAccess(t, p.spec).value.first + i * ElementAccess(t, p.spec).value.stride
    ensures var a := CellAlignment(t, p.spec.args[0]);
            PowerOfTwo(a) && at % a == 0 && p.scale % a == 0 && ElementAccess(t, p.spec).value.stride % a == 0
  {
    var how := ElementAccess(t, p.spec).value;
    var elt := p.spec.args[0];
    CellAlignmentIs(t, elt);
    var a := CellAlignment(t, elt);
    assert how.stride == a;
    MultipleMod(1, a);
    ProductDivides(i, how.stride, a);
    if p.spec.base == "array" { BoxedDataAligned(t, p, p.at + ARRAY_DATA_OFFSET); }
    SumDivides(p.at + how.first, i * how.stride, a);
  }

  lemma EmbeddedElementAligned(t: Table, p: Place, i: int, at: int)
    requires AllAligned(t) && p.Ref? && PlaceAligned(t, p) && ElementAccess(t, p.spec).Some?
             && !ElementAccess(t, p.spec).value.loads
    requires at == p.at + ElementAccess(t, p.spec).value.first + i * ElementAccess(t, p.spec).value.stride
    ensures var elt, stride := p.spec.args[0].base, ElementAccess(t, p.spec).value.stride;
            elt in t.types && t.types[elt].kind.StructKind? && elt != "array" && elt != "pointer"
                && elt != "inline-array"
            && MemoryAligned(t, elt, at, p.scale) && MemoryAligned(t, elt, at, stride)
  {
    var how := ElementAccess(t, p.spec).value;
    var elt := p.spec.args[0];
    var d := t.types[elt.base];
    AlignmentsNest(t, elt.base);
    var a := InnerAlignment(d);
    AlignUpIsLeast(d.kind.size, d.StrideAlignment(), 0);
    SmallerDivides(how.stride, a, d.StrideAlignment());
    ProductDivides(i, how.stride, a);
    assert MemoryAligned(t, elt.base, p.at, p.scale);
    SumDivides(p.at - d.BoxOffset(), i * how.stride, a);
  }

  lemma IndexStepAligned(t: Table, p: Place, i: int, scale: int)
    requires AllAligned(t) && p.Ref? && PlaceAligned(t, p) && ElementAccess(t, p.spec).Some?
    requires scale == p.scale || scale == ElementAccess(t, p.spec).value.stride
    ensures PlaceAligned(t, Indexed(p, ElementAccess(t, p.spec).value, i, scale))
  {
    var how := ElementAccess(t, p.spec).value;
    var at := p.at + how.first + i * how.stride;
    if how.loads {
      LoadedElementAligned(t, p, i, at);
    } else {
      EmbeddedElementAligned(t, p, i, at);
    }
  }

  lemma StepAligned(t: Table, p: Place, tok: Token)
    requires AllAligned(t) && PlaceAligned(t, p) && Step(t, p, tok).Some?
    ensures PlaceAligned(t, Step(t, p, tok).value)
  {
    match tok
    case FieldTok(name) => FieldStepAligned(t, p, name);
    case ConstIdx(i) => IndexStepAligned(t, p, i, p.scale);
    case VarIdx => IndexStepAligned(t, p, 0, ElementAccess(t, p.spec).value.stride);
  }

  lemma {:induction false} PathAligned(t: Table, p: Place, path: seq<Token>)
    requires AllAligned(t) && PlaceAligned(t, p) && Replay(t, p, path).Some?
    ensures PlaceAligned(t, Replay(t, p, path).value)
    decreases |path|
  {
    if path != [] {
      StepAligned(t, p, path[0]);
      PathAligned(t, Step(t, p, path[0]).value, path[1..]);
    }
  }

  predicate IsMultiple(x: int, a: int) { a > 0 && x % a == 0 }

  /**
   Natural alignment: an object whose memory starts at its start alignment has every cell of every
   embedded element, at any depth, packed or misaligned, at a multiple of the cell's own
   alignment; `idx` is the value of the variable index, if the path has one.
   */
  lemma CellsAreAligned(t: Table, name: string, address: int, path: seq<Token>, cell: TypeSpec, at: int, scale: int,
                        idx: int)
    requires AllAligned(t) && name in t.types && t.types[name].kind.StructKind?
             && IsMultiple(address, t.types[name].StartAlignment())
    requires Replay(t, Ref(Simple(name), address + t.types[name].BoxOffset(), 0, None), path)
        == Some(Mem(cell, at, scale))
    ensures IsMultiple(at + idx * scale, CellAlignment(t, cell))
  {
    var d := t.types[name];
    ObjectAligned(t, name, address);
    CellAlignmentIs(t, cell);
    PathAligned(t, Ref(Simple(name), address + d.BoxOffset(), 0, None), path);
    ProductDivides(idx, scale, CellAlignment(t, cell));
    SumDivides(at, idx * scale, CellAlignment(t, cell));
  }

  lemma ObjectAligned(t: Table, name: string, address: int)
    requires AllAligned(t) && name in t.types && t.types[name].kind.StructKind?
             && IsMultiple(address, t.types[name].StartAlignment())
    ensures PlaceAligned(t, Ref(Simple(name), address + t.types[name].BoxOffset(), 0, None))
  {
    AlignmentsNest(t, name);
    SmallerDivides(address, InnerAlignment(t.types[name]), t.types[name].StartAlignment());
  }
}

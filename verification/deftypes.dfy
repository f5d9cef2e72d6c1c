/**
 The table as a state that `declare-type` and `deftype` forms change: `add_type`,
 `forward_declare_type_as` and `parse_deftype`, and what every table so built satisfies.
 */
module Deftypes {
  import opened TypeTable
  import opened Wrappers
  import opened Layout
  import opened MethodTables
  import opened LookupSoundness
  import opened LookupCompleteness
  import opened LookupTermination

  /** A deftype form after parsing. The fields of bitfield types (children of `integer`) are not modelled. */
  datatype DeftypeForm = DeftypeForm(name: string, parent: string, fields: seq<FieldDecl>, methods: seq<MethodDecl>,
                                     packMe: bool, allowMisaligned: bool, final: bool,
                                     sizeAssert: Option<int>, methodCountAssert: Option<int>)

  datatype Form = DeclareType(name: string, parent: string) | Deftype(form: DeftypeForm)

  /** `serial` is the next number in definition order. */
  ghost predicate Numbered(t: Table) {
    Grounded(t.types) && forall n <- t.types :: t.types[n].serial < |t.types|
  }

  predicate Agrees(t: Table, parent: string, name: string)
    requires Grounded(t.types)
  {
    CheckBase(t, parent, name) == Some(true)
  }

  function ForwardDeclare(t: Table, name: string, parent: string): Result<Table>
    requires Grounded(t.types)
  {
    if name in t.types then
      if parent in t.types && Agrees(t, parent, name) then Ok(t) else Thrown
    else if name !in t.forward then Ok(t.(forward := t.forward[name := parent]))
    else
      var previous := t.forward[name];
      if previous == parent then Ok(t)
      else if previous !in t.types || parent !in t.types then Thrown
      else if Agrees(t, previous, parent) then Ok(t.(forward := t.forward[name := parent]))
      else if Agrees(t, parent, previous) then Ok(t)
      else Thrown
  }

  /** What redefinitions are compared by: all but the definition order and the fields' `skip` marks. */
  function Comparable(d: TypeDef): TypeDef {
    d.(serial := 0,
       kind := if d.kind.StructKind? then d.kind.(fields :=
           seq(|d.kind.fields|, i requires 0 <= i < |d.kind.fields| => d.kind.fields[i].(skip := false))) else d.kind)
  }

  const ROOTS := {"object", "none", "_type_", "_varargs_"}

  function AddType(t: Table, d: TypeDef): Result<Table>
    requires Numbered(t) && d.serial == |t.types| && (d.HasParent() ==> d.parent in t.types)
  {
    if d.name in t.types then
      if !d.kind.NullKind? && Comparable(t.types[d.name]) == Comparable(d) then Ok(t) else Thrown
    else if d.name !in ROOTS && (d.parent in t.forward || d.parent !in t.types) then Thrown
    else
      var t' := t.(types := t.types[d.name := d]);
      if d.name in t.forward && !Agrees(t', t.forward[d.name], d.name) then Thrown
      else Ok(t'.(forward := t.forward - {d.name}))
  }

  /** Both assertions compare 16-bit numbers. */
  predicate AssertHolds(wanted: Option<int>, actual: int)
  {
    wanted.Some? ==> wanted.value % 0x1_0000 == actual % 0x1_0000
  }

  /** Methods, assertions and options, then the table entry. */
  function FinishDeftype(t: Table, form: DeftypeForm, kind: Kind): Result<Table>
    requires Numbered(t) && form.parent in t.types && form.parent != "" && !kind.NullKind?
  {
    match DeclareMethods(t.types, TypeDef(form.name, form.parent, |t.types|, kind, [], None), form.methods)
    case Thrown => Thrown
    case Ok(d) =>
      if !AssertHolds(form.sizeAssert, kind.size) then Thrown
      else if !AssertHolds(form.methodCountAssert, NextId(t.types, d)) then Thrown
      else AddType(t, d)
  }

  function DefineStructure(t: Table, form: DeftypeForm, basic: bool): Result<Table>
    requires Numbered(t) && form.parent != ""
  {
    if form.parent !in t.types then Thrown
    else
      var parent := t.types[form.parent].kind;
      if !parent.StructKind? || (basic && (!parent.basic || parent.final)) then Thrown
      else
        match ForwardDeclare(t, form.name, if basic then "basic" else "structure")
        case Thrown => Thrown
        case Ok(t') =>
          match AddFields(t', StructKind(parent.fields, parent.dynamic, parent.size, false, false, 0, basic, false),
                          form.fields)
          case Thrown => Thrown
          case Ok(k) =>
            if (basic && form.allowMisaligned) || (!basic && form.final) then Thrown
            else FinishDeftype(t', form,
                               k.(packed := form.packMe, misaligned := form.allowMisaligned, final := form.final))
  }

  function DefineBitfield(t: Table, form: DeftypeForm): Result<Table>
    requires Numbered(t) && form.parent != ""
  {
    if form.parent !in t.types || !t.types[form.parent].kind.ValueKind? then Thrown
    else FinishDeftype(t, form, t.types[form.parent].kind.(bitfield := true))
  }

  /** The reader makes no symbols with an empty name. */
  function ParseDeftype(t: Table, form: DeftypeForm): Result<Table>
    requires Numbered(t)
  {
    if form.name == "" || form.parent == "" then Thrown
    else
      match CheckBase(t, "basic", form.parent)
      case None => Thrown
      case Some(true) => DefineStructure(t, form, true)
      case Some(false) =>
        match CheckBase(t, "structure", form.parent)
        case None => Thrown
        case Some(true) => DefineStructure(t, form, false)
        case Some(false) =>
          if CheckBase(t, "integer", form.parent) == Some(true) then DefineBitfield(t, form) else Thrown
  }

  // ---------------------------------------------------------------------------------------------
  // The invariant
  // ---------------------------------------------------------------------------------------------

  /** The types that the code refers to by name, as `add_builtin_types` makes them. */
  ghost predicate BuiltinsPresent(t: Table) {
    && "object" in t.types && "float" in t.types && "integer" in t.types && "pointer" in t.types
    && "inline-array" in t.types
    && "structure" in t.types && t.types["structure"].kind.StructKind? && "basic" in t.types
    && t.types["basic"].kind.StructKind?
    && t.types["pointer"].kind.ValueKind? && t.types["inline-array"].kind.ValueKind?
    && UnitsAreValues(t)
    && "array" in t.types && ArrayAsBuilt(t.types["array"].kind)
  }

  const UNITS := {"meters", "degrees", "seconds"}

  ghost predicate UnitsAreValues(t: Table) { forall n <- UNITS :: n in t.types && t.types[n].kind.ValueKind? }

  predicate ArrayAsBuilt(k: Kind) {
    && k.StructKind? && k.basic && !k.packed && k.dynamic && k.size <= ARRAY_DATA_OFFSET + BASIC_OFFSET
    && forall f <- k.fields :: !f.isInline && (f.name == "data" ==> f.offset == ARRAY_DATA_OFFSET + BASIC_OFFSET)
  }

  /**
   A field whose type is known, that fits its owner and is aligned in it, and that embeds only what was defined
   before, dynamic data apart.
   */
  ghost predicate FieldOk(t: Table, owner: TypeDef, f: Field)
    requires owner.kind.StructKind?
  {
    && Known(t, f.spec) && FieldFits(t, owner, f) && FieldPlaced(t, f)
    && (f.isInline && !f.dynamic ==> f.spec.base in t.types && t.types[f.spec.base].serial < owner.serial)
  }

  ghost predicate TypeOk(t: Table, d: TypeDef) {
    match d.kind
    case NullKind => true
    case ValueKind(size, _, _) => PowerOfTwo(size)
    case StructKind(fields, _, size, _, _, _, _, _) =>
      size >= 0 && DistinctFields(d) && forall f <- fields :: FieldOk(t, d, f)
  }

  /** Only structures descend from structures. */
  ghost predicate KindsInherited(types: Types)
    requires Grounded(types)
  {
    forall n <- types :: types[n].HasParent() && types[types[n].parent].kind.StructKind? ==> types[n].kind.StructKind?
  }

  /** Names declared ahead stand for structures. */
  ghost predicate ForwardOk(t: Table) {
    forall n <- t.forward :: n !in t.types && t.forward[n] in t.types && t.types[t.forward[n]].kind.StructKind?
  }

  /** What every table has that deftypes build from the builtin types. */
  ghost predicate TableOk(t: Table) {
    && Numbered(t) && BuiltinsPresent(t) && KindsInherited(t.types) && ForwardOk(t)
    && (forall n <- t.types :: TypeOk(t, t.types[n]))
    && AllMethodsOk(t.types)
  }

  lemma TypeOkFits(t: Table, d: TypeDef)
    requires TypeOk(t, d)
    ensures DistinctFields(d) && (d.kind.ValueKind? ==> d.kind.size > 0)
    ensures d.kind.StructKind? ==> d.kind.size >= 0 && forall f <- d.kind.fields :: FieldFits(t, d, f)
  {
    if d.kind.StructKind? {
      forall f <- d.kind.fields ensures FieldFits(t, d, f) { assert FieldOk(t, d, f); }
    }
  }

  /** The layout facts that the reverse lookup rests on are part of it. */
  lemma TableOkFits(t: Table)
    requires TableOk(t)
    ensures FieldsFit(t)
  {
    hide FieldFits, DistinctFields, AllMethodsOk, KindsInherited, ForwardOk, TypeOk;
    forall n <- t.types
      ensures DistinctFields(t.types[n]) && (t.types[n].kind.ValueKind? ==> t.types[n].kind.size > 0)
      ensures t.types[n].kind.StructKind? ==>
          t.types[n].kind.size >= 0 && forall f <- t.types[n].kind.fields :: FieldFits(t, t.types[n], f)
    {
      TypeOkFits(t, t.types[n]);
    }
  }

  // ---------------------------------------------------------------------------------------------
  // Every form keeps it
  // ---------------------------------------------------------------------------------------------

  /** `t'` has all that `t` has; names declared ahead stay structures when they are defined. */
  ghost predicate Grown(t: Table, t': Table) {
    && (forall n <- t.types :: n in t'.types && t'.types[n] == t.types[n])
    && (forall n <- t.forward ::
          if n in t'.types then t'.types[n].kind.StructKind?
          else n in t'.forward && t'.forward[n] in t'.types && t'.types[t'.forward[n]].kind.StructKind?)
  }

  /** Sizes and cell alignments settle as soon as a type is known. */
  lemma GrowthKeepsField(t: Table, t': Table, owner: TypeDef, f: Field)
    requires Grown(t, t') && ForwardOk(t) && owner.kind.StructKind? && FieldOk(t, owner, f)
    ensures FieldOk(t', owner, f) && SizeInType(t', f) == SizeInType(t, f)
            && CellAlignment(t', f.spec) == CellAlignment(t, f.spec)
  {
  }

  lemma GrowthKeepsType(t: Table, t': Table, d: TypeDef)
    requires Grown(t, t') && ForwardOk(t) && TypeOk(t, d)
    ensures TypeOk(t', d)
  {
    if d.kind.StructKind? {
      forall f <- d.kind.fields ensures FieldOk(t', d, f) { GrowthKeepsField(t, t', d, f); }
    }
  }

  lemma {:induction false} StructureDescends(types: Types, anc: string, n: string)
    requires Grounded(types) && KindsInherited(types) && n in types && anc in types && types[anc].kind.StructKind?
             && IsSub(types, anc, n)
    ensures types[n].kind.StructKind?
    decreases types[n].serial
  {
    if n != anc { StructureDescends(types, anc, types[n].parent); }
  }

  lemma ForwardDeclareGrows(t: Table, name: string, parent: string)
    requires Grounded(t.types) && ForwardOk(t)
    requires parent in t.types && t.types[parent].kind.StructKind? && ForwardDeclare(t, name, parent).Ok?
    ensures var t' := ForwardDeclare(t, name, parent).value;
            ForwardOk(t') && Grown(t, t') && t'.types == t.types && (name in t'.types || name in t'.forward)
  {
    hide Agrees;
    var t' := ForwardDeclare(t, name, parent).value;
    assert t' == t || t' == t.(forward := t.forward[name := parent]);
    assert t'.forward != t.forward ==> name !in t.types;
  }

  lemma ForwardDeclareKeeps(t: Table, name: string, parent: string)
    requires TableOk(t) && parent in t.types && t.types[parent].kind.StructKind? && ForwardDeclare(t, name, parent).Ok?
    ensures TableOk(ForwardDeclare(t, name, parent).value)
  {
    ForwardDeclareGrows(t, name, parent);
    var t' := ForwardDeclare(t, name, parent).value;
    forall n <- t'.types ensures TypeOk(t', t'.types[n]) { GrowthKeepsType(t, t', t.types[n]); }
  }

  lemma InheritanceKeeps(t: Table, parent: TypeDef, d: TypeDef)
    requires TypeOk(t, parent) && parent.kind.StructKind? && d.kind.StructKind? && parent.serial < d.serial
    requires d.kind.fields == parent.kind.fields && d.kind.size == parent.kind.size
    ensures TypeOk(t, d)
  {
    forall f <- d.kind.fields ensures FieldOk(t, d, f) { assert FieldOk(t, parent, f); }
  }

  lemma StaysDistinct(d: TypeDef, d': TypeDef, f: Field)
    requires d.kind.StructKind? && d'.kind.StructKind? && DistinctFields(d)
    requires d'.kind.fields == d.kind.fields + [f] && FindField(d.kind.fields, f.name).None?
    ensures DistinctFields(d')
  {
    var fields := d.kind.fields;
    forall i | 0 <= i < |fields| ensures fields[i].name != f.name { FindDistinct(fields, i); }
  }

  /** The alignment a field asks for is a power of two, and its offset is a multiple of it. */
  lemma NewFieldPlaced(t: Table, k: Kind, decl: FieldDecl)
    requires (forall n <- t.types :: TypeOk(t, t.types[n])) && k.StructKind? && AddField(t, k, decl).Ok?
    ensures var k' := AddField(t, k, decl).value.0; FieldPlaced(t, k'.fields[|k'.fields| - 1])
  {
    hide SizeInType, FieldFits, DistinctFields;
    var d := Resolve(t, decl.spec.base).value;
    assert exists n :: n in t.types && t.types[n] == d;
    assert TypeOk(t, d);
    if d.kind.StructKind? { StructAlignmentIs(t, d); }
    var alignment := AlignmentInType(t, NewField(decl)).value;
    AlignUpIsLeast(k.size, alignment, k.size);
    if decl.offset != -1 { AlignUpIsLeast(decl.offset, alignment, decl.offset); }
  }

  lemma StructAlignmentIs(t: Table, d: TypeDef)
    requires TypeOk(t, d) && d.kind.StructKind?
    ensures PowerOfTwo(d.StartAlignment()) && PowerOfTwo(d.StrideAlignment())
    ensures forall f <- d.kind.fields :: PowerOfTwo(f.alignment) && f.alignment <= d.StartAlignment()
  {
    hide FieldFits, DistinctFields;
    forall f <- d.kind.fields ensures PowerOfTwo(f.alignment) { assert FieldOk(t, d, f); }
    StartCoversFields(d);
  }

  lemma AddFieldKeeps(t: Table, d: TypeDef, decl: FieldDecl)
    requires TableOk(t) && d.serial == |t.types| && d.kind.StructKind? && TypeOk(t, d) && AddField(t, d.kind, decl).Ok?
    ensures TypeOk(t, d.(kind := AddField(t, d.kind, decl).value.0))
  {
    hide BuiltinsPresent, AllMethodsOk, KindsInherited, ForwardOk, DistinctFields;
    var (k', offset) := AddField(t, d.kind, decl).value;
    var d' := d.(kind := k');
    var placed := k'.fields[|k'.fields| - 1];
    assert SizeInType(t, placed) == SizeInType(t, NewField(decl));
    StaysDistinct(d, d', placed);
    NewFieldPlaced(t, d.kind, decl);
    forall f <- k'.fields ensures FieldOk(t, d', f) {
      if f in d.kind.fields { assert FieldOk(t, d, f); }
    }
  }

  lemma {:induction false} AddFieldsKeep(t: Table, d: TypeDef, decls: seq<FieldDecl>)
    requires TableOk(t) && d.serial == |t.types| && d.kind.StructKind? && TypeOk(t, d)
             && AddFields(t, d.kind, decls).Ok?
    ensures TypeOk(t, d.(kind := AddFields(t, d.kind, decls).value))
    decreases |decls|
  {
    if decls != [] {
      AddFieldKeeps(t, d, decls[0]);
      AddFieldsKeep(t, d.(kind := AddField(t, d.kind, decls[0]).value.0), decls[1..]);
    }
  }

  /** A finished definition, ready for the table. */
  ghost predicate Addable(t: Table, d: TypeDef) {
    && TableOk(t) && d.serial == |t.types| && !d.kind.NullKind? && d.name != ""
    && (d.HasParent() ==> d.parent in t.types && (t.types[d.parent].kind.StructKind? ==> d.kind.StructKind?))
    && TypeOk(t, d) && MethodsOk(t.types, d)
  }

  lemma EntryKeepsOrder(t: Table, d: TypeDef, types': Types)
    requires Numbered(t) && KindsInherited(t.types) && d.serial == |t.types| && d.name !in t.types
             && types' == t.types[d.name := d]
    requires d.HasParent() ==> d.parent in t.types && (t.types[d.parent].kind.StructKind? ==> d.kind.StructKind?)
    ensures Grounded(types') && KindsInherited(types') && |types'| == |t.types| + 1
    ensures forall n <- types' :: types'[n].serial < |types'|
  {
    assert types'.Keys == t.types.Keys + {d.name};
  }

  /** A type declared ahead as a structure and then accepted is one. */
  lemma AcceptedIsStructure(t: Table, anc: string, name: string)
    requires Grounded(t.types) && KindsInherited(t.types) && name in t.types
    requires anc in t.types && t.types[anc].kind.StructKind? && anc !in UNITS && Agrees(t, anc, name)
    ensures t.types[name].kind.StructKind?
  {
    StructureDescends(t.types, anc, name);
  }

  lemma AddTypeGrows(t: Table, d: TypeDef)
    requires Numbered(t) && KindsInherited(t.types) && ForwardOk(t) && UnitsAreValues(t)
    requires d.serial == |t.types|
             && (d.HasParent() ==> d.parent in t.types && (t.types[d.parent].kind.StructKind? ==> d.kind.StructKind?))
    requires AddType(t, d).Ok? && d.name !in t.types
    ensures var t' := AddType(t, d).value;
            && t'.types == t.types[d.name := d]
            && Numbered(t') && KindsInherited(t'.types) && ForwardOk(t') && Grown(t, t')
  {
    var types' := t.types[d.name := d];
    EntryKeepsOrder(t, d, types');
    if d.name in t.forward {
      var anc := t.forward[d.name];
      assert anc in t.types && anc !in UNITS;
      AcceptedIsStructure(t.(types := types'), anc, d.name);
    }
    ForwardShrinks(t, d, AddType(t, d).value);
  }

  lemma ForwardShrinks(t: Table, d: TypeDef, t': Table)
    requires ForwardOk(t) && d.name !in t.types && t' == Table(t.types[d.name := d], t.forward - {d.name})
    requires d.name in t.forward ==> d.kind.StructKind?
    ensures ForwardOk(t') && Grown(t, t')
  {
  }

  lemma EntriesKeep(t: Table, d: TypeDef, t': Table)
    requires ForwardOk(t) && Grown(t, t') && t'.types == t.types[d.name := d] && TypeOk(t, d)
    requires forall n <- t.types :: TypeOk(t, t.types[n])
    ensures forall n <- t'.types :: TypeOk(t', t'.types[n])
  {
    forall n <- t'.types ensures TypeOk(t', t'.types[n]) {
      GrowthKeepsType(t, t', t'.types[n]);
    }
  }

  lemma MethodsKeep(t: Table, d: TypeDef, t': Table)
    requires Grounded(t.types) && Grounded(t'.types) && Grown(t, t') && t'.types == t.types[d.name := d]
    requires ParentDefined(t.types, d) && MethodsOk(t.types, d) && AllMethodsOk(t.types)
    ensures AllMethodsOk(t'.types)
  {
    forall n <- t'.types ensures MethodsOk(t'.types, t'.types[n]) {
      GrowthKeepsMethods(t.types, t'.types, t'.types[n]);
    }
  }

  lemma BuiltinsKeep(t: Table)
    requires BuiltinsPresent(t)
    ensures UnitsAreValues(t)
  {
  }

  lemma BuiltinsStay(t: Table, t': Table)
    requires BuiltinsPresent(t) && Grown(t, t')
    ensures BuiltinsPresent(t')
  {
  }

  lemma AddTypeKeeps(t: Table, d: TypeDef)
    requires Addable(t, d) && AddType(t, d).Ok?
    ensures TableOk(AddType(t, d).value)
  {
    hide Comparable, Agrees, TypeOk, KindsInherited, ForwardOk, BuiltinsPresent, AllMethodsOk, Grown;
    if d.name !in t.types {
      BuiltinsKeep(t);
      AddTypeGrows(t, d);
      BuiltinsStay(t, AddType(t, d).value);
      EntriesKeep(t, d, AddType(t, d).value);
      MethodsKeep(t, d, AddType(t, d).value);
    }
  }

  lemma FinishKeeps(t: Table, form: DeftypeForm, kind: Kind)
    requires TableOk(t) && form.parent in t.types && form.parent != "" && form.name != "" && !kind.NullKind?
    requires TypeOk(t, TypeDef(form.name, form.parent, |t.types|, kind, [], None))
    requires t.types[form.parent].kind.StructKind? ==> kind.StructKind?
    requires FinishDeftype(t, form, kind).Ok?
    ensures TableOk(FinishDeftype(t, form, kind).value)
  {
    var d0 := TypeDef(form.name, form.parent, |t.types|, kind, [], None);
    var d := DeclareMethods(t.types, d0, form.methods).value;
    DeclareAllKeeps(t.types, d0, form.methods);
    KindDecides(t, d0, d);
    hide TypeOk, AddType, BuiltinsPresent, KindsInherited, ForwardOk, AllMethodsOk, MethodsOk;
    AddTypeKeeps(t, d);
  }

  lemma KindDecides(t: Table, d: TypeDef, d': TypeDef)
    requires TypeOk(t, d) && d'.kind == d.kind && d'.serial == d.serial
    ensures TypeOk(t, d')
  {
    if d.kind.StructKind? {
      forall f <- d.kind.fields ensures FieldOk(t, d', f) { assert FieldOk(t, d, f); }
    }
  }

  lemma DefineStructureKeeps(t: Table, form: DeftypeForm, basic: bool)
    requires TableOk(t) && form.parent != "" && form.name != "" && DefineStructure(t, form, basic).Ok?
    ensures TableOk(DefineStructure(t, form, basic).value)
  {
    var parent := t.types[form.parent];
    var kind := if basic then "basic" else "structure";
    ForwardDeclareGrows(t, form.name, kind);
    ForwardDeclareKeeps(t, form.name, kind);
    var t' := ForwardDeclare(t, form.name, kind).value;
    var k0 := StructKind(parent.kind.fields, parent.kind.dynamic, parent.kind.size, false, false, 0, basic, false);
    var d0 := TypeDef(form.name, form.parent, |t'.types|, k0, [], None);
    assert TypeOk(t', parent);
    InheritanceKeeps(t', parent, d0);
    AddFieldsKeep(t', d0, form.fields);
    var k := AddFields(t', k0, form.fields).value;
    var k' := k.(packed := form.packMe, misaligned := form.allowMisaligned, final := form.final);
    OptionsKeep(t', d0.(kind := k), d0.(kind := k'));
    FinishKeeps(t', form, k');
  }

  /** The options set after the fields do not matter to the fields. */
  lemma OptionsKeep(t: Table, d: TypeDef, d': TypeDef)
    requires TypeOk(t, d) && d.kind.StructKind? && d'.kind.StructKind? && d.serial == d'.serial
    requires d'.kind.fields == d.kind.fields && d'.kind.size == d.kind.size
    ensures TypeOk(t, d')
  {
    forall f <- d'.kind.fields ensures FieldOk(t, d', f) { assert FieldOk(t, d, f); }
  }

  lemma ParseDeftypeKeeps(t: Table, form: DeftypeForm)
    requires TableOk(t) && ParseDeftype(t, form).Ok?
    ensures TableOk(ParseDeftype(t, form).value)
  {
    hide AllMethodsOk, KindsInherited, ForwardOk, BuiltinsPresent, FieldOk, DistinctFields, DefineStructure,
         FinishDeftype;
    if CheckBase(t, "basic", form.parent) == Some(true) {
      DefineStructureKeeps(t, form, true);
    } else if CheckBase(t, "structure", form.parent) == Some(true) {
      DefineStructureKeeps(t, form, false);
    } else {
      var parent := t.types[form.parent];
      assert TypeOk(t, parent);
      FinishKeeps(t, form, parent.kind.(bitfield := true));
    }
  }

  // ---------------------------------------------------------------------------------------------
  // Runs
  // ---------------------------------------------------------------------------------------------

  /** `declare-type` forms whose kind is not a known structure are not modelled. */
  function Process(t: Table, form: Form): Result<Table>
    requires Numbered(t)
  {
    match form
    case DeclareType(name, parent) =>
      if parent in t.types && t.types[parent].kind.StructKind? then ForwardDeclare(t, name, parent) else Thrown
    case Deftype(f) => ParseDeftype(t, f)
  }

  /** `t'` comes from `t` by processing the forms in order, none of which throws. */
  ghost predicate Builds(t: Table, forms: seq<Form>, t': Table)
    decreases |forms|
  {
    if forms == [] then t' == t
    else Numbered(t) && Process(t, forms[0]).Ok? && Builds(Process(t, forms[0]).value, forms[1..], t')
  }

  lemma ProcessKeeps(t: Table, form: Form)
    requires TableOk(t) && Process(t, form).Ok?
    ensures TableOk(Process(t, form).value)
  {
    match form
    case DeclareType(name, parent) => ForwardDeclareKeeps(t, name, parent);
    case Deftype(f) => ParseDeftypeKeeps(t, f);
  }

  /** Safety over runs: whatever forms are processed, the table keeps its invariant. */
  lemma {:induction false} EveryRunKeeps(t: Table, forms: seq<Form>, t': Table)
    requires TableOk(t) && Builds(t, forms, t')
    ensures TableOk(t')
    decreases |forms|
  {
    if forms != [] {
      ProcessKeeps(t, forms[0]);
      EveryRunKeeps(Process(t, forms[0]).value, forms[1..], t');
    }
  }
}

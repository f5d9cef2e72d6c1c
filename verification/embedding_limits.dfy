/**
 Why the checks of `FormChecks` are needed: forms that the source accepts, after which the reverse lookup never
 returns, a cell is misaligned, or a load is not found.
 */
module EmbeddingLimits {
  import opened TypeTable
  import opened Wrappers
  import opened FieldPaths
  import opened ReverseLookup
  import opened Layout
  import opened MethodTables
  import opened LookupSoundness
  import opened LookupCompleteness
  import opened LookupExactness
  import opened LookupTermination
  import opened LookupCycles
  import opened NaturalAlignment
  import opened FormChecks
  import opened Deftypes

  const EMPTY_STRUCTURE := StructKind([], false, 0, false, false, 0, false, false)

  /** The builtin types used below. */
  ghost predicate Base(t: Table) {
    && Numbered(t) && KindsInherited(t.types)
    && "object" in t.types && "basic" in t.types
    && "structure" in t.types && t.types["structure"].kind == EMPTY_STRUCTURE && t.types["structure"].parent == "object"
    && "structure" !in t.forward
    && "int32" in t.types && t.types["int32"].kind == ValueKind(4, true, false)
    && "int64" in t.types && t.types["int64"].kind == ValueKind(8, true, false)
  }

  /** A table that has them, and none of the names defined below. */
  ghost predicate Start(t: Table) {
    && TableOk(t) && Base(t)
    && "a" !in t.types && "b" !in t.types && "c" !in t.types && "a" !in t.forward && "b" !in t.forward
    && "c" !in t.forward
  }

  function Plainly(name: string, spec: TypeSpec): FieldDecl { FieldDecl(name, spec, false, false, -1, -1, false, None) }

  function Structure(name: string, parent: string, fields: seq<FieldDecl>, packed: bool): Form {
    Deftype(DeftypeForm(name, parent, fields, [], packed, false, false, None, None))
  }

  function Ahead(t: Table, name: string): Table {
    if name in t.forward then t else t.(forward := t.forward[name := "structure"])
  }

  ghost predicate DeclaredAhead(t: Table, name: string, parent: string)
    requires Numbered(t) && parent in t.types
  {
    name in t.forward ==>
      t.forward[name] in t.types && t.forward[name] !in UNITS && IsSub(t.types, t.forward[name], parent)
      && Agrees(t, "structure", t.forward[name])
      && (t.forward[name] == "structure" || CheckBase(t, t.forward[name], "structure") == Some(false))
  }

  lemma StructureEntered(t: Table, d: TypeDef)
    requires Numbered(t) && KindsInherited(t.types) && d.serial == |t.types| && d.name !in t.types && d.name !in ROOTS
    requires d.parent in t.types && d.parent !in t.forward && d.parent != "" && d.kind.StructKind?
    requires d.name in t.forward && t.forward[d.name] in t.types && t.forward[d.name] !in UNITS
             && IsSub(t.types, t.forward[d.name], d.parent)
    ensures AddType(t, d) == Ok(Table(t.types[d.name := d], t.forward - {d.name}))
  {
    var types' := t.types[d.name := d];
    EntryKeepsOrder(t, d, types');
    GrowthKeepsSub(t.types, types', t.forward[d.name], d.parent);
  }

  lemma DeclaresAhead(t: Table, name: string, parent: string)
    requires Numbered(t) && name !in t.types && parent in t.types && "structure" in t.types
             && DeclaredAhead(t, name, parent)
    ensures ForwardDeclare(t, name, "structure") == Ok(Ahead(t, name))
  {
  }

  lemma Finished(t: Table, form: DeftypeForm, kind: Kind)
    requires Numbered(t) && form.parent in t.types && form.parent != "" && !kind.NullKind?
    requires form.methods == [] && form.sizeAssert.None? && form.methodCountAssert.None?
    ensures FinishDeftype(t, form, kind) == AddType(t, TypeDef(form.name, form.parent, |t.types|, kind, [], None))
  {
  }

  lemma DefinedAs(t: Table, form: DeftypeForm, k: Kind)
    requires Numbered(t) && form.parent in t.types && form.parent != "" && t.types[form.parent].kind.StructKind?
    requires form.name !in t.types && ForwardDeclare(t, form.name, "structure") == Ok(Ahead(t, form.name))
             && !form.final
    requires var p := t.types[form.parent].kind;
             AddFields(Ahead(t, form.name), StructKind(p.fields, p.dynamic, p.size, false, false, 0, false, false),
                       form.fields) == Ok(k)
    ensures DefineStructure(t, form, false) ==
            FinishDeftype(Ahead(t, form.name), form,
                          k.(packed := form.packMe, misaligned := form.allowMisaligned, final := form.final))
  {
  }

  /** A deftype of a structure without methods or assertions. */
  lemma StructureDefined(t: Table, name: string, parent: string, fields: seq<FieldDecl>, packed: bool, k: Kind)
    requires Base(t) && name !in t.types && name != "" && name !in ROOTS
    requires parent in t.types && parent !in t.forward && parent != name && parent != ""
             && t.types[parent].kind.StructKind?
    requires CheckBase(t, "basic", parent) == Some(false) && CheckBase(t, "structure", parent) == Some(true)
    requires DeclaredAhead(t, name, parent)
    requires var p := t.types[parent].kind;
             AddFields(Ahead(t, name), StructKind(p.fields, p.dynamic, p.size, false, false, 0, false, false), fields)
                 == Ok(k)
    ensures Process(t, Structure(name, parent, fields, packed)) ==
            Ok(Table(t.types[name :=
                TypeDef(name, parent, |t.types|, k.(packed := packed, misaligned := false, final := false), [], None)],
                    t.forward - {name}))
    ensures Base(Process(t, Structure(name, parent, fields, packed)).value)
  {
    var form := Structure(name, parent, fields, packed).form;
    var t1 := Ahead(t, name);
    assert t1.types == t.types && name in t1.forward && t1.forward - {name} == t.forward - {name};
    var k' := k.(packed := packed, misaligned := false, final := false);
    var d := TypeDef(name, parent, |t.types|, k', [], None);
    DeclaresAhead(t, name, parent);
    WillAgree(t, name, parent);
    ParsedAsStructure(t, form);
    hide Process, ParseDeftype, Ahead, CheckBase, IsSub, Agrees, AddFields, ForwardDeclare, FinishDeftype, AddType,
        DefineStructure, KindsInherited, DeclaredAhead;
    DefinedAs(t, form, k);
    Finished(t1, form, k');
    StructureEntered(t1, d);
    BaseGrows(t, d, Table(t.types[name := d], t.forward - {name}));
  }

  lemma ParsedAsStructure(t: Table, form: DeftypeForm)
    requires Numbered(t) && form.name != "" && form.parent != ""
    requires CheckBase(t, "basic", form.parent) == Some(false) && CheckBase(t, "structure", form.parent) == Some(true)
    ensures Process(t, Deftype(form)) == DefineStructure(t, form, false)
  {
    hide CheckBase, DefineStructure;
  }

  lemma WillAgree(t: Table, name: string, parent: string)
    requires Base(t) && parent in t.types && DeclaredAhead(t, name, parent)
             && CheckBase(t, "structure", parent) == Some(true)
    ensures var ahead := Ahead(t, name).forward[name];
        ahead in t.types && ahead !in UNITS && IsSub(t.types, ahead, parent)
  {
  }

  lemma BaseGrows(t: Table, d: TypeDef, t': Table)
    requires Base(t) && d.name !in t.types && d.serial == |t.types| && d.parent in t.types && d.kind.StructKind?
    requires t' == Table(t.types[d.name := d], t.forward - {d.name})
    ensures Base(t')
  {
    EntryKeepsOrder(t, d, t'.types);
  }

  /** One such deftype at the front of a run. */
  lemma StructureFirst(t: Table, name: string, parent: string, fields: seq<FieldDecl>, packed: bool, k: Kind)
      returns (t': Table)
    requires Base(t) && name !in t.types && name != "" && name !in ROOTS
    requires parent in t.types && parent !in t.forward && parent != name && parent != ""
             && t.types[parent].kind.StructKind?
    requires CheckBase(t, "basic", parent) == Some(false) && CheckBase(t, "structure", parent) == Some(true)
    requires DeclaredAhead(t, name, parent)
    requires var p := t.types[parent].kind;
             AddFields(Ahead(t, name), StructKind(p.fields, p.dynamic, p.size, false, false, 0, false, false), fields)
                 == Ok(k)
    ensures t'
        == Table(t.types[name :=
            TypeDef(name, parent, |t.types|, k.(packed := packed, misaligned := false, final := false), [], None)],
                t.forward - {name})
    ensures Base(t')
    ensures forall rest, t'' :: Builds(t', rest, t'') ==>
        Builds(t, [Structure(name, parent, fields, packed)] + rest, t'')
  {
    StructureDefined(t, name, parent, fields, packed, k);
    t' := Process(t, Structure(name, parent, fields, packed)).value;
    forall rest, t'' | Builds(t', rest, t'') ensures Builds(t, [Structure(name, parent, fields, packed)] + rest, t'') {
      FormFirst(t, Structure(name, parent, fields, packed), t', rest, t'');
    }
  }

  lemma NothingLeft(t: Table)
    ensures Builds(t, [], t)
  {
  }

  lemma FormFirst(t: Table, form: Form, t': Table, rest: seq<Form>, t'': Table)
    requires Numbered(t) && Process(t, form) == Ok(t') && Builds(t', rest, t'')
    ensures Builds(t, [form] + rest, t'')
  {
    assert ([form] + rest)[1..] == rest;
  }

  lemma DeclareFirst(t: Table, name: string, parent: string) returns (t': Table)
    requires Base(t) && parent in t.types && t.types[parent].kind.StructKind? && name !in t.types && name !in t.forward
             && name != "structure"
    ensures t' == t.(forward := t.forward[name := parent]) && Base(t')
    ensures forall rest, t'' :: Builds(t', rest, t'') ==> Builds(t, [DeclareType(name, parent)] + rest, t'')
  {
    t' := t.(forward := t.forward[name := parent]);
    forall rest, t'' | Builds(t', rest, t'') ensures Builds(t, [DeclareType(name, parent)] + rest, t'') {
      FormFirst(t, DeclareType(name, parent), t', rest, t'');
    }
  }

  lemma {:induction false} GrowthKeepsSub(types: Types, types': Types, anc: string, n: string)
    requires Grounded(types) && n in types && forall m <- types :: m in types' && types'[m] == types[m]
    requires Grounded(types')
    ensures IsSub(types', anc, n) == IsSub(types, anc, n)
    decreases types[n].serial
  {
    if types[n].HasParent() { GrowthKeepsSub(types, types', anc, types[n].parent); }
  }

  // ---------------------------------------------------------------------------------------------
  // A search that never returns
  // ---------------------------------------------------------------------------------------------

  const PAD := Plainly("pad", Simple("int32"))
  const PAD_FIELD := Field("pad", Simple("int32"), 0, false, false, false, 0, 4, false)
  /** (x b :inline :dynamic :offset 0) */
  const X := FieldDecl("x", Simple("b"), true, true, -1, 0, false, None)
  const X_FIELD := Field("x", Simple("b"), 0, true, true, true, 0, 16, false)
  /** (y a :inline) */
  const Y := FieldDecl("y", Simple("a"), true, false, -1, -1, false, None)
  const Y_FIELD := Field("y", Simple("a"), 0, true, false, false, 0, 16, false)

  const KIND_A := StructKind([PAD_FIELD, X_FIELD], true, 4, false, false, 0, false, false)
  const KIND_B := StructKind([Y_FIELD], false, 4, false, false, 0, false, false)

  lemma FieldsOfA(t: Table)
    requires "int32" in t.types && t.types["int32"].kind == ValueKind(4, true, false)
    requires "structure" in t.types && t.types["structure"].kind == EMPTY_STRUCTURE && "b" !in t.types
             && "b" in t.forward && t.forward["b"] == "structure"
    ensures AddFields(t, EMPTY_STRUCTURE, [PAD, X]) == Ok(KIND_A)
  {
    var k := StructKind([PAD_FIELD], false, 4, false, false, 0, false, false);
    assert [PAD, X][1..] == [X] && [X][1..] == [];
    assert [] + [PAD_FIELD] == [PAD_FIELD] && [PAD_FIELD] + [X_FIELD] == [PAD_FIELD, X_FIELD];
    assert AddField(t, EMPTY_STRUCTURE, PAD) == Ok((k, 0));
    assert FindField(k.fields, "x").None? by { assert [PAD_FIELD][1..] == []; }
    assert AddField(t, k, X) == Ok((KIND_A, 0));
    assert AddFields(t, KIND_A, []) == Ok(KIND_A);
    assert AddFields(t, k, [X]) == Ok(KIND_A);
  }

  lemma FieldsOfB(t: Table)
    requires "a" in t.types && t.types["a"].name == "a" && t.types["a"].kind == KIND_A
    ensures AddFields(t, EMPTY_STRUCTURE, [Y]) == Ok(KIND_B)
  {
    assert [Y][1..] == [] && [] + [Y_FIELD] == [Y_FIELD];
    assert AddField(t, EMPTY_STRUCTURE, Y) == Ok((KIND_B, 0));
    assert AddFields(t, KIND_B, []) == Ok(KIND_B);
  }

  lemma StructureIsPlainParent(t: Table)
    requires Base(t)
    ensures CheckBase(t, "basic", "structure") == Some(false) && CheckBase(t, "structure", "structure") == Some(true)
    ensures "structure" in t.types && t.types["structure"].kind == EMPTY_STRUCTURE
  {
    assert !IsSub(t.types, "basic", "object");
  }

  const CYCLE := [DeclareType("b", "structure")]
      + ([Structure("a", "structure", [PAD, X], false)] + ([Structure("b", "structure", [Y], false)] + []))

  lemma FirstOfCycle(t: Table) returns (t': Table)
    requires Base(t) && "a" !in t.types && "a" !in t.forward && "b" !in t.types && "b" in t.forward
             && t.forward["b"] == "structure"
    ensures Base(t') && t' == Table(t.types["a" := TypeDef("a", "structure", |t.types|, KIND_A, [], None)], t.forward)
    ensures forall rest, t'' :: Builds(t', rest, t'') ==>
        Builds(t, [Structure("a", "structure", [PAD, X], false)] + rest, t'')
  {
    StructureIsPlainParent(t);
    FieldsOfA(Ahead(t, "a"));
    t' := StructureFirst(t, "a", "structure", [PAD, X], false, KIND_A);
    assert t.forward - {"a"} == t.forward;
  }

  lemma SecondOfCycle(t: Table) returns (t': Table)
    requires Base(t) && "a" in t.types && t.types["a"].kind == KIND_A && "b" !in t.types && "b" in t.forward
             && t.forward["b"] == "structure"
    ensures t' == Table(t.types["b" := TypeDef("b", "structure", |t.types|, KIND_B, [], None)], t.forward - {"b"})
    ensures forall rest, t'' :: Builds(t', rest, t'') ==>
        Builds(t, [Structure("b", "structure", [Y], false)] + rest, t'')
  {
    StructureIsPlainParent(t);
    FieldsOfB(t);
    t' := StructureFirst(t, "b", "structure", [Y], false, KIND_B);
  }

  lemma CycleIsBuilt(t: Table) returns (t': Table)
    requires Base(t) && "a" !in t.types && "b" !in t.types && "a" !in t.forward && "b" !in t.forward
    ensures Builds(t, CYCLE, t') && t'.forward == t.forward
    ensures forall n <- t.types :: n in t'.types && t'.types[n] == t.types[n]
    ensures forall n <- t'.types :: n in t.types || n == "a" || n == "b"
    ensures "a" in t'.types && t'.types["a"].kind == KIND_A && "b" in t'.types && t'.types["b"].kind == KIND_B
  {
    hide Builds, Base, KindsInherited, BuiltinsPresent;
    StructureIsPlainParent(t);
    var t1 := DeclareFirst(t, "b", "structure");
    var t2 := FirstOfCycle(t1);
    t' := SecondOfCycle(t2);
    assert t'.forward == t.forward;
    CycleInOrder(t, t1, t2, t');
  }

  lemma CycleInOrder(t: Table, t1: Table, t2: Table, t': Table)
    requires forall rest, t'' :: Builds(t1, rest, t'') ==> Builds(t, [DeclareType("b", "structure")] + rest, t'')
    requires forall rest, t'' :: Builds(t2, rest, t'') ==>
        Builds(t1, [Structure("a", "structure", [PAD, X], false)] + rest, t'')
    requires forall rest, t'' :: Builds(t', rest, t'') ==>
        Builds(t2, [Structure("b", "structure", [Y], false)] + rest, t'')
    ensures Builds(t, CYCLE, t')
  {
    hide Builds;
    NothingLeft(t');
  }

  const TWO_BYTES := DerefKind(false, 2, true)

  /** From `a` into the data of `b` at its start, and back. */
  const CYCLE_RING := [Spot("a", 0), Spot("b", 0), Spot("a", 0)]

  const TWO_BYTE_LOAD := Input(Some(TWO_BYTES), 0, 0, Simple("a"))

  /** The source accepts forms after which a two-byte load from `a` is looked up forever. */
  lemma LookupCanDiverge(t: Table)
    requires Start(t)
    ensures exists t' ::
              && Builds(t, CYCLE, t') && TableOk(t')
              && Fruitless(t', TWO_BYTES, {"a", "b"}) && Ring(t', 2, {"a", "b"}, CYCLE_RING)
              && forall max: int :: max > 0 ==> !LookupEnds(t', TWO_BYTE_LOAD, max)
  {
    hide Builds, Search, Fruitless, FieldsFit, TypeOk, AllMethodsOk, Ring, Base, BuiltinsPresent, KindsInherited,
        ForwardOk;
    var t' := CycleIsBuilt(t);
    EveryRunKeeps(t, CYCLE, t');
    TableOkFits(t');
    CycleIsFruitless(t, t');
    CycleIsRing(t');
    assert AtSpot(t', TWO_BYTES, Simple("a"), 0) == TWO_BYTE_LOAD;
    forall max: int, fuel: nat | max > 0 ensures Search(t', TWO_BYTE_LOAD, [], [], max, fuel) == OutOfFuel {
      RingSpins(t', TWO_BYTES, {"a", "b"}, CYCLE_RING, 0, Simple("a"), [], [], max, fuel);
    }
  }

  lemma CycleIsRing(t: Table)
    requires Grounded(t.types) && TableOk(t)
    requires "a" in t.types && t.types["a"].kind == KIND_A && "b" in t.types && t.types["b"].kind == KIND_B
    ensures Ring(t, 2, {"a", "b"}, CYCLE_RING)
  {
    hide TableOk, GoesBy, Landing;
    IntoData(t);
    BackFromData(t);
    assert GoesBy(t, 2, CYCLE_RING[0], 1, CYCLE_RING[1]) && GoesBy(t, 2, CYCLE_RING[1], 0, CYCLE_RING[2]);
    assert Goes(t, 2, CYCLE_RING[0], CYCLE_RING[1]) && Goes(t, 2, CYCLE_RING[1], CYCLE_RING[2]);
  }

  lemma IntoData(t: Table)
    requires Grounded(t.types) && TableOk(t)
    requires "a" in t.types && t.types["a"].kind == KIND_A && "b" in t.types && t.types["b"].kind == KIND_B
    ensures GoesBy(t, 2, Spot("a", 0), 1, Spot("b", 0))
  {
    hide TableOk, ElementStride, SizeInType;
    DataStride(t);
  }

  lemma BackFromData(t: Table)
    requires Grounded(t.types)
    requires "a" in t.types && t.types["a"].kind == KIND_A && "b" in t.types && t.types["b"].kind == KIND_B
    ensures GoesBy(t, 2, Spot("b", 0), 0, Spot("a", 0))
  {
    hide ElementStride, SizeInType;
    assert SizeInType(t, Y_FIELD) == Some(4) by { EmbeddedSize(t); }
  }

  lemma EmbeddedSize(t: Table)
    requires "a" in t.types && t.types["a"].name == "a" && t.types["a"].kind == KIND_A
    ensures SizeInType(t, Y_FIELD) == Some(4)
  {
  }

  lemma DataStride(t: Table)
    requires Grounded(t.types) && TableOk(t) && "b" in t.types && t.types["b"].kind == KIND_B
    ensures ElementStride(t, Simple("b")) == Some(16)
  {
    hide TypeOk, AllMethodsOk, KindsInherited, ForwardOk, UnitsAreValues, IsSub;
  }

  lemma CycleIsFruitless(t: Table, t': Table)
    requires Base(t) && Grounded(t'.types) && TableOk(t') && FieldsFit(t')
    requires forall n <- t.types :: n in t'.types && t'.types[n] == t.types[n]
    requires "a" in t'.types && t'.types["a"].kind == KIND_A && "b" in t'.types && t'.types["b"].kind == KIND_B
    ensures Fruitless(t', TWO_BYTES, {"a", "b"})
  {
    hide TableOk, FieldsFit, Base, Closed, AnswerableIn, NoCellIn;
    CycleFieldsAnswer(t, t');
    CycleFieldsDiffer(t, t');
    CycleIsClosed(t');
  }

  lemma CycleIsClosed(t: Table)
    requires "a" in t.types && t.types["a"].kind == KIND_A && "b" in t.types && t.types["b"].kind == KIND_B
    ensures Closed(t, {"a", "b"})
  {
  }

  lemma CycleFieldsAnswer(t: Table, t': Table)
    requires Base(t) && Grounded(t'.types) && TableOk(t')
    requires forall n <- t.types :: n in t'.types && t'.types[n] == t.types[n]
    requires "a" in t'.types && t'.types["a"].kind == KIND_A && "b" in t'.types && t'.types["b"].kind == KIND_B
    ensures AnswerableIn(t', {"a", "b"})
  {
    hide AnswerableField, KindsInherited, ForwardOk, TypeOk, AllMethodsOk;
    WordAnswers(t, t');
    EmbeddedAnswer(t');
  }

  lemma WordAnswers(t: Table, t': Table)
    requires Base(t) && forall n <- t.types :: n in t'.types && t'.types[n] == t.types[n]
    ensures AnswerableField(t', PAD_FIELD)
  {
  }

  lemma EmbeddedAnswer(t: Table)
    requires Grounded(t.types) && TableOk(t)
    requires "a" in t.types && t.types["a"].kind == KIND_A && "b" in t.types && t.types["b"].kind == KIND_B
    ensures AnswerableField(t, X_FIELD) && AnswerableField(t, Y_FIELD)
  {
    hide TypeOk, AllMethodsOk, KindsInherited, ForwardOk, UnitsAreValues;
  }

  lemma CycleFieldsDiffer(t: Table, t': Table)
    requires Base(t) && Grounded(t'.types) && FieldsFit(t')
    requires forall n <- t.types :: n in t'.types && t'.types[n] == t.types[n]
    requires "a" in t'.types && t'.types["a"].kind == KIND_A && "b" in t'.types && t'.types["b"].kind == KIND_B
    ensures NoCellIn(t', TWO_BYTES, {"a", "b"})
  {
    hide FieldFits, DistinctFields, Accepts;
    if Accepts(t', Simple("int32"), TWO_BYTES) { AcceptedSize(t', Simple("int32"), TWO_BYTES); }
    assert NoCell(t', TWO_BYTES, PAD_FIELD) && NoCell(t', TWO_BYTES, X_FIELD) && NoCell(t', TWO_BYTES, Y_FIELD);
    hide NoCell;
  }

  // ---------------------------------------------------------------------------------------------
  // A misaligned cell
  // ---------------------------------------------------------------------------------------------

  /**
   a: packed, one int32; b: declared as an `a`, gets an int64 of its own; c: an int32, then dynamic inline data of
   type b.
   */
  const DATA := FieldDecl("x", Simple("b"), true, true, -1, -1, false, None)
  const DATA_FIELD := Field("x", Simple("b"), 4, true, true, true, 0, 4, false)
  const LONG := Plainly("y", Simple("int64"))
  const LONG_FIELD := Field("y", Simple("int64"), 8, false, false, false, 0, 8, false)

  const MISALIGNED := [Structure("a", "structure", [PAD], true)]
                      + ([DeclareType("b", "a")]
                          + ([Structure("c", "structure", [PAD, DATA], false)]
                              + ([Structure("b", "a", [LONG], false)] + [])))

  const PACKED_A := StructKind([PAD_FIELD], false, 4, true, false, 0, false, false)
  const KIND_C := StructKind([PAD_FIELD, DATA_FIELD], true, 4, false, false, 0, false, false)
  const LONG_B := StructKind([PAD_FIELD, LONG_FIELD], false, 16, false, false, 0, false, false)

  lemma FieldsOfPacked(t: Table)
    requires "int32" in t.types && t.types["int32"].kind == ValueKind(4, true, false)
    ensures AddFields(t, EMPTY_STRUCTURE, [PAD]) == Ok(PACKED_A.(packed := false))
  {
    assert [PAD][1..] == [] && [] + [PAD_FIELD] == [PAD_FIELD];
    assert AddField(t, EMPTY_STRUCTURE, PAD) == Ok((PACKED_A.(packed := false), 0));
    assert AddFields(t, PACKED_A.(packed := false), []) == Ok(PACKED_A.(packed := false));
  }

  lemma FieldsOfHolder(t: Table)
    requires "int32" in t.types && t.types["int32"].kind == ValueKind(4, true, false)
    requires "a" in t.types && t.types["a"].kind == PACKED_A && "b" !in t.types && "b" in t.forward
             && t.forward["b"] == "a"
    ensures AddFields(t, EMPTY_STRUCTURE, [PAD, DATA]) == Ok(KIND_C)
  {
    var k := PACKED_A.(packed := false);
    assert [PAD, DATA][1..] == [DATA] && [DATA][1..] == [];
    assert [] + [PAD_FIELD] == [PAD_FIELD] && [PAD_FIELD] + [DATA_FIELD] == [PAD_FIELD, DATA_FIELD];
    assert AddField(t, EMPTY_STRUCTURE, PAD) == Ok((k, 0));
    assert FindField(k.fields, "x").None? by { assert [PAD_FIELD][1..] == []; }
    PackedAlignment();
    assert AddField(t, k, DATA) == Ok((KIND_C, 4));
    assert AddFields(t, KIND_C, []) == Ok(KIND_C);
    assert AddFields(t, k, [DATA]) == Ok(KIND_C);
  }

  lemma PackedAlignment()
    ensures MaxAlignment([PAD_FIELD], 1) == 4
  {
    assert [PAD_FIELD][..0] == [];
  }

  lemma FieldsOfLong(t: Table)
    requires "int64" in t.types && t.types["int64"].kind == ValueKind(8, true, false)
    ensures AddFields(t, PACKED_A.(packed := false), [LONG]) == Ok(LONG_B)
  {
    var k := PACKED_A.(packed := false);
    assert [LONG][1..] == [] && [PAD_FIELD] + [LONG_FIELD] == [PAD_FIELD, LONG_FIELD];
    assert FindField(k.fields, "y").None? by { assert [PAD_FIELD][1..] == []; }
    assert AddField(t, k, LONG) == Ok((LONG_B, 8));
    assert AddFields(t, LONG_B, []) == Ok(LONG_B);
  }

  lemma PackedFirst(t: Table) returns (t': Table)
    requires Base(t) && "a" !in t.types && "a" !in t.forward
    ensures Base(t') && t' == Table(t.types["a" := TypeDef("a", "structure", |t.types|, PACKED_A, [], None)], t.forward)
    ensures forall rest, t'' :: Builds(t', rest, t'') ==>
        Builds(t, [Structure("a", "structure", [PAD], true)] + rest, t'')
  {
    StructureIsPlainParent(t);
    FieldsOfPacked(Ahead(t, "a"));
    t' := StructureFirst(t, "a", "structure", [PAD], true, PACKED_A.(packed := false));
    assert t.forward - {"a"} == t.forward;
  }

  lemma HolderFirst(t: Table) returns (t': Table)
    requires Base(t) && "a" in t.types && t.types["a"].kind == PACKED_A && "c" !in t.types && "c" !in t.forward
    requires "b" !in t.types && "b" in t.forward && t.forward["b"] == "a"
    ensures Base(t') && t' == Table(t.types["c" := TypeDef("c", "structure", |t.types|, KIND_C, [], None)], t.forward)
    ensures forall rest, t'' :: Builds(t', rest, t'') ==>
        Builds(t, [Structure("c", "structure", [PAD, DATA], false)] + rest, t'')
  {
    StructureIsPlainParent(t);
    FieldsOfHolder(Ahead(t, "c"));
    t' := StructureFirst(t, "c", "structure", [PAD, DATA], false, KIND_C);
    assert t.forward - {"c"} == t.forward;
  }

  lemma LongFirst(t: Table) returns (t': Table)
    requires Base(t) && "a" in t.types && t.types["a"].kind == PACKED_A && t.types["a"].parent == "structure"
             && "a" !in t.forward
    requires "b" !in t.types && "b" in t.forward && t.forward["b"] == "a"
    ensures t' == Table(t.types["b" := TypeDef("b", "a", |t.types|, LONG_B, [], None)], t.forward - {"b"})
    ensures forall rest, t'' :: Builds(t', rest, t'') ==> Builds(t, [Structure("b", "a", [LONG], false)] + rest, t'')
  {
    ParentA(t);
    FieldsOfLong(t);
    t' := StructureFirst(t, "b", "a", [LONG], false, LONG_B);
  }

  lemma MisalignedIsBuilt(t: Table) returns (t': Table)
    requires Base(t) && "a" !in t.types && "b" !in t.types && "c" !in t.types && "a" !in t.forward && "b" !in t.forward
             && "c" !in t.forward
    ensures Builds(t, MISALIGNED, t')
    ensures forall n <- t.types :: n in t'.types && t'.types[n] == t.types[n]
    ensures "c" in t'.types && t'.types["c"].kind == KIND_C && "b" in t'.types && t'.types["b"].kind == LONG_B
  {
    hide Builds, Base;
    var t1 := PackedFirst(t);
    var t2 := DeclareFirst(t1, "b", "a");
    var t3 := HolderFirst(t2);
    t' := LongFirst(t3);
    NothingLeft(t');
  }

  lemma ParentA(t: Table)
    requires Base(t) && "a" in t.types && t.types["a"].parent == "structure"
    ensures CheckBase(t, "basic", "a") == Some(false) && CheckBase(t, "structure", "a") == Some(true)
    ensures CheckBase(t, "a", "structure") == Some(false)
  {
    StructureIsPlainParent(t);
    assert !IsSub(t.types, "a", "object");
    assert IsSub(t.types, "structure", "structure");
  }

  /** The source accepts forms after which an object at address 0 has an 8-byte cell at address 12. */
  lemma CellCanBeMisaligned(t: Table)
    requires Start(t)
    ensures exists t' ::
              && Builds(t, MISALIGNED, t') && TableOk(t') && "c" in t'.types && t'.types["c"].kind == KIND_C
              && Replay(t', Ref(Simple("c"), 0, 0, None), [FieldTok("x"), ConstIdx(0), FieldTok("y")])
                    == Some(Mem(Simple("int64"), 12, 0))
              && !IsMultiple(12, CellAlignment(t', Simple("int64"))) && !EmbeddingsSuit(t')
  {
    hide Builds, TypeOk, AllMethodsOk, EmbeddingsSuit;
    var t' := MisalignedIsBuilt(t);
    EveryRunKeeps(t, MISALIGNED, t');
    MisalignedPath(t, t');
    AlignedExactly(t');
    MisalignedIsNotNatural(t');
  }

  lemma MisalignedIsNotNatural(t: Table)
    requires Grounded(t.types) && "c" in t.types && t.types["c"].kind == KIND_C
    requires Replay(t, Ref(Simple("c"), 0, 0, None), [FieldTok("x"), ConstIdx(0), FieldTok("y")])
        == Some(Mem(Simple("int64"), 12, 0))
    requires !IsMultiple(12, CellAlignment(t, Simple("int64")))
    ensures !NaturallyAligned(t)
  {
    hide Replay;
    assert Object(t, "c", 0) && t.types["c"].BoxOffset() == 0;
    assert ConstantPath([FieldTok("x"), ConstIdx(0), FieldTok("y")]);
  }

  lemma MisalignedPath(t: Table, t': Table)
    requires Base(t) && Grounded(t'.types) && forall n <- t.types :: n in t'.types && t'.types[n] == t.types[n]
    requires "float" in t'.types && "inline-array" in t'.types
    requires "c" in t'.types && t'.types["c"].kind == KIND_C && "b" in t'.types && t'.types["b"].kind == LONG_B
    ensures Replay(t', Ref(Simple("c"), 0, 0, None), [FieldTok("x"), ConstIdx(0), FieldTok("y")])
        == Some(Mem(Simple("int64"), 12, 0))
    ensures CellAlignment(t', Simple("int64")) == 8
  {
    var q := Ref(InlineArrayOf(Simple("b")), 4, 0, None);
    var q' := Ref(Simple("b"), 4, 0, None);
    MisalignedSteps(t, t');
    var path := [FieldTok("x"), ConstIdx(0), FieldTok("y")];
    assert path[1..] == [ConstIdx(0), FieldTok("y")] && path[1..][1..] == [FieldTok("y")] && path[1..][1..][1..] == [];
    assert Replay(t', q', path[1..][1..]) == Some(Mem(Simple("int64"), 12, 0));
    assert Replay(t', q, path[1..]) == Some(Mem(Simple("int64"), 12, 0));
  }

  lemma MisalignedSteps(t: Table, t': Table)
    requires Base(t) && Grounded(t'.types) && forall n <- t.types :: n in t'.types && t'.types[n] == t.types[n]
    requires "float" in t'.types && "inline-array" in t'.types
    requires "c" in t'.types && t'.types["c"].kind == KIND_C && "b" in t'.types && t'.types["b"].kind == LONG_B
    ensures Step(t', Ref(Simple("c"), 0, 0, None), FieldTok("x")) == Some(Ref(InlineArrayOf(Simple("b")), 4, 0, None))
    ensures Step(t', Ref(InlineArrayOf(Simple("b")), 4, 0, None), ConstIdx(0)) == Some(Ref(Simple("b"), 4, 0, None))
    ensures Step(t', Ref(Simple("b"), 4, 0, None), FieldTok("y")) == Some(Mem(Simple("int64"), 12, 0))
  {
    HolderStep(t, t');
    ElementStepIs(t, t');
    LongStep(t, t');
  }

  lemma ElementStepIs(t: Table, t': Table)
    requires Base(t) && Grounded(t'.types) && "float" in t'.types && "inline-array" in t'.types
    requires "b" in t'.types && t'.types["b"].kind == LONG_B
    ensures Step(t', Ref(InlineArrayOf(Simple("b")), 4, 0, None), ConstIdx(0)) == Some(Ref(Simple("b"), 4, 0, None))
  {
  }

  lemma LongStep(t: Table, t': Table)
    requires Base(t) && Grounded(t'.types) && forall n <- t.types :: n in t'.types && t'.types[n] == t.types[n]
    requires "b" in t'.types && t'.types["b"].kind == LONG_B
    ensures Step(t', Ref(Simple("b"), 4, 0, None), FieldTok("y")) == Some(Mem(Simple("int64"), 12, 0))
  {
    FindDistinct(LONG_B.fields, 1);
  }

  lemma HolderStep(t: Table, t': Table)
    requires Base(t) && Grounded(t'.types) && forall n <- t.types :: n in t'.types && t'.types[n] == t.types[n]
    requires "float" in t'.types && "inline-array" in t'.types
    requires "c" in t'.types && t'.types["c"].kind == KIND_C && "b" in t'.types && t'.types["b"].kind == LONG_B
    ensures Step(t', Ref(Simple("c"), 0, 0, None), FieldTok("x")) == Some(Ref(InlineArrayOf(Simple("b")), 4, 0, None))
  {
    FindDistinct(KIND_C.fields, 1);
  }

  // ---------------------------------------------------------------------------------------------
  // A load that is not found
  // ---------------------------------------------------------------------------------------------

  /** a: an int32 four bytes in front of its start; b: an `a` at 16, so that the int32 is at 12. */
  const BEFORE := FieldDecl("x", Simple("int32"), false, false, -1, -4, false, None)
  const BEFORE_FIELD := Field("x", Simple("int32"), -4, false, false, false, 0, 4, false)
  const INSIDE := FieldDecl("y", Simple("a"), true, false, -1, 16, false, None)
  const INSIDE_FIELD := Field("y", Simple("a"), 16, true, false, false, 0, 16, false)

  const EARLY_A := StructKind([BEFORE_FIELD], false, 0, false, false, 0, false, false)
  const EARLY_B := StructKind([INSIDE_FIELD], false, 16, false, false, 0, false, false)

  const EARLY := [Structure("a", "structure", [BEFORE], false)] + ([Structure("b", "structure", [INSIDE], false)] + [])

  lemma FieldsBefore(t: Table)
    requires "int32" in t.types && t.types["int32"].kind == ValueKind(4, true, false)
    ensures AddFields(t, EMPTY_STRUCTURE, [BEFORE]) == Ok(EARLY_A)
  {
    assert [BEFORE][1..] == [] && [] + [BEFORE_FIELD] == [BEFORE_FIELD];
    assert AddField(t, EMPTY_STRUCTURE, BEFORE) == Ok((EARLY_A, -4));
    assert AddFields(t, EARLY_A, []) == Ok(EARLY_A);
  }

  lemma FieldsInside(t: Table)
    requires "a" in t.types && t.types["a"].name == "a" && t.types["a"].kind == EARLY_A
    ensures AddFields(t, EMPTY_STRUCTURE, [INSIDE]) == Ok(EARLY_B)
  {
    assert [INSIDE][1..] == [] && [] + [INSIDE_FIELD] == [INSIDE_FIELD];
    assert AddField(t, EMPTY_STRUCTURE, INSIDE) == Ok((EARLY_B, 16));
    assert AddFields(t, EARLY_B, []) == Ok(EARLY_B);
  }

  lemma EarlyIsBuilt(t: Table) returns (t': Table)
    requires Base(t) && "a" !in t.types && "b" !in t.types && "a" !in t.forward && "b" !in t.forward
    ensures Builds(t, EARLY, t')
    ensures forall n <- t.types :: n in t'.types && t'.types[n] == t.types[n]
    ensures "a" in t'.types && t'.types["a"].kind == EARLY_A && "b" in t'.types && t'.types["b"].kind == EARLY_B
  {
    hide Builds, Base;
    var t1 := EarlyFirst(t);
    t' := EarlySecond(t1);
    NothingLeft(t');
  }

  lemma EarlyFirst(t: Table) returns (t': Table)
    requires Base(t) && "a" !in t.types && "a" !in t.forward
    ensures Base(t') && t' == Table(t.types["a" := TypeDef("a", "structure", |t.types|, EARLY_A, [], None)], t.forward)
    ensures forall rest, t'' :: Builds(t', rest, t'') ==>
        Builds(t, [Structure("a", "structure", [BEFORE], false)] + rest, t'')
  {
    StructureIsPlainParent(t);
    FieldsBefore(Ahead(t, "a"));
    t' := StructureFirst(t, "a", "structure", [BEFORE], false, EARLY_A);
    assert t.forward - {"a"} == t.forward;
  }

  lemma EarlySecond(t: Table) returns (t': Table)
    requires Base(t) && "a" in t.types && t.types["a"].kind == EARLY_A && "b" !in t.types && "b" !in t.forward
    ensures t' == Table(t.types["b" := TypeDef("b", "structure", |t.types|, EARLY_B, [], None)], t.forward)
    ensures forall rest, t'' :: Builds(t', rest, t'') ==>
        Builds(t, [Structure("b", "structure", [INSIDE], false)] + rest, t'')
  {
    StructureIsPlainParent(t);
    FieldsInside(Ahead(t, "b"));
    t' := StructureFirst(t, "b", "structure", [INSIDE], false, EARLY_B);
    assert t.forward - {"b"} == t.forward;
  }

  const EARLY_LOAD := Input(Some(DerefKind(false, 4, true)), 12, 0, Simple("b"))
  const EARLY_PATH := [FieldTok("y"), FieldTok("x")]

  /** The source accepts forms after which the int32 at offset 12 of `b` is not found, although a path leads there. */
  lemma LoadCanBeMissed(t: Table)
    requires Start(t)
    ensures exists t' ::
              && Builds(t, EARLY, t') && TableOk(t') && !EmbeddedNonNegative(t')
              && Leads(t', EARLY_LOAD, From(Simple("b")), EARLY_PATH, Simple("int32"))
              && forall max: int, fuel: nat :: max > 0 && fuel > 0 ==>
                    Search(t', EARLY_LOAD, [], [], max, fuel) == Done([])
  {
    hide Builds, Search, FieldsFit, TypeOk, AllMethodsOk, Leads, EmbeddedNonNegative;
    var t' := EarlyIsBuilt(t);
    EveryRunKeeps(t, EARLY, t');
    EarlyIsEarly(t');
    EarlyPathLeads(t, t');
    forall max: int, fuel: nat | max > 0 && fuel > 0 ensures Search(t', EARLY_LOAD, [], [], max, fuel) == Done([]) {
      EarlyLoadFails(t', max, fuel);
    }
  }

  lemma EarlyIsEarly(t: Table)
    requires "a" in t.types && t.types["a"].kind == EARLY_A && "b" in t.types && t.types["b"].kind == EARLY_B
    ensures !EmbeddedNonNegative(t)
  {
    assert BEFORE_FIELD in t.types["a"].kind.fields && !NonNegative(t, "a");
    assert INSIDE_FIELD in t.types["b"].kind.fields;
  }

  lemma EarlyPathLeads(t: Table, t': Table)
    requires Base(t) && Grounded(t'.types) && forall n <- t.types :: n in t'.types && t'.types[n] == t.types[n]
    requires "float" in t'.types && "integer" in t'.types && "pointer" in t'.types
    requires "a" in t'.types && t'.types["a"].kind == EARLY_A && "b" in t'.types && t'.types["b"].kind == EARLY_B
    ensures Leads(t', EARLY_LOAD, From(Simple("b")), EARLY_PATH, Simple("int32"))
  {
    var p, q, cell := From(Simple("b")), Ref(Simple("a"), 16, 0, None), Mem(Simple("int32"), 12, 0);
    EarlyFirstStep(t');
    EarlySecondStep(t, t');
    hide Step, PlainStep, GetDerefInfo, Accepts, Base;
    OneStepLoads(t', q, FieldTok("x"), cell);
    assert EARLY_PATH[1..] == [FieldTok("x")];
  }

  lemma OneStepLoads(t: Table, p: Place, tok: Token, q: Place)
    requires Grounded(t.types) && PlainStep(t, p, tok) && Step(t, p, tok) == Some(q)
    ensures Plain(t, p, [tok]) && Replay(t, p, [tok]) == Some(q)
  {
    hide Step, PlainStep;
    assert [tok][1..] == [];
    assert Plain(t, q, []);
  }

  lemma EarlyFirstStep(t: Table)
    requires Grounded(t.types)
    requires "a" in t.types && t.types["a"].kind == EARLY_A && "b" in t.types && t.types["b"].kind == EARLY_B
    ensures var p := From(Simple("b"));
            PlainStep(t, p, FieldTok("y")) && Step(t, p, FieldTok("y")) == Some(Ref(Simple("a"), 16, 0, None))
  {
    FindDistinct(EARLY_B.fields, 0);
  }

  lemma EarlySecondStep(t: Table, t': Table)
    requires Base(t) && Grounded(t'.types) && forall n <- t.types :: n in t'.types && t'.types[n] == t.types[n]
    requires "float" in t'.types && "integer" in t'.types && "pointer" in t'.types
    requires "a" in t'.types && t'.types["a"].kind == EARLY_A
    ensures var q := Ref(Simple("a"), 16, 0, None);
            PlainStep(t', q, FieldTok("x")) && Step(t', q, FieldTok("x")) == Some(Mem(Simple("int32"), 12, 0))
    ensures Accepts(t', Simple("int32"), EARLY_LOAD.deref.value)
  {
    FindDistinct(EARLY_A.fields, 0);
  }

  lemma EarlyLoadFails(t: Table, max: int, fuel: nat)
    requires Grounded(t.types) && max > 0 && fuel > 0
    requires "a" in t.types && t.types["a"].kind == EARLY_A && "b" in t.types && t.types["b"].kind == EARLY_B
    ensures Search(t, EARLY_LOAD, [], [], max, fuel) == Done([])
  {
    FindDistinct(EARLY_B.fields, 0);
    assert GetFieldInfo(t, "b", "y").Some?;
    assert SearchField(t, EARLY_LOAD, [], [], max, fuel, INSIDE_FIELD) == Done([]);
    hide SearchField, GetFieldInfo;
    assert SearchFields(t, EARLY_LOAD, [], [], max, fuel, 1) == Done([]);
    assert SearchOther(t, EARLY_LOAD, [], [], max, fuel) == SearchFields(t, EARLY_LOAD, [], [], max, fuel, 0);
  }
}

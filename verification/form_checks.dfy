/**
 Checks that a caller can make on each form before it is processed, and what a run whose forms pass them gives:
 natural alignment and a reverse lookup that returns, no field in front of its structure, and no search that fails.
 The source makes none of them, except that it asks for the size of every embedded type whose field is not dynamic.
 */
module FormChecks {
  import opened TypeTable
  import opened Wrappers
  import opened FieldPaths
  import opened ReverseLookup
  import opened Layout
  import opened MethodTables
  import opened LookupSoundness
  import opened LookupCompleteness
  import opened LookupExactness
  import opened LookupTermination
  import opened LookupCycles
  import opened Deftypes
  import opened NaturalAlignment

  /** Which checks are made: embedded types are defined, offsets are not negative, fields can be looked into. */
  datatype Checks = Checks(defined: bool, behindStart: bool, answerable: bool)

  const ALL_CHECKS := Checks(true, true, true)

  ghost predicate DeclPasses(t: Table, decl: FieldDecl, c: Checks) {
    && (c.defined ==> decl.isInline ==> decl.spec.base in t.types)
    && (c.behindStart ==> decl.offset >= -1)
    && (c.answerable ==> decl.skip || AnswerableField(t, NewField(decl)))
  }

  ghost predicate FormPasses(t: Table, form: Form, c: Checks) {
    form.Deftype? ==> forall decl <- form.form.fields :: DeclPasses(t, decl, c)
  }

  ghost predicate FieldChecked(t: Table, d: TypeDef, f: Field, c: Checks) {
    && (c.defined ==> FieldAligned(t, f) && EmbedsOlder(t, d, f))
    && (c.behindStart ==> f.offset >= 0)
    && (c.answerable ==> f.skip || AnswerableField(t, f))
  }

  ghost predicate FieldsChecked(t: Table, d: TypeDef, c: Checks) {
    d.kind.StructKind? ==> forall f <- d.kind.fields :: FieldChecked(t, d, f, c)
  }

  ghost predicate CheckedTable(t: Table, c: Checks) {
    TableOk(t) && forall n <- t.types :: FieldsChecked(t, t.types[n], c)
  }

  // ---------------------------------------------------------------------------------------------
  // What the checks are for
  // ---------------------------------------------------------------------------------------------

  lemma CheckedIsAligned(t: Table, c: Checks)
    requires CheckedTable(t, c) && c.defined
    ensures AllAligned(t) && InlineDefined(t)
  {
    forall n <- t.types | t.types[n].kind.ValueKind? ensures PowerOfTwo(t.types[n].kind.size) {
      assert TypeOk(t, t.types[n]);
    }
    forall n <- t.types | t.types[n].kind.StructKind?
      ensures forall f <- t.types[n].kind.fields :: FieldAligned(t, f) && EmbedsOlder(t, t.types[n], f)
    {
      assert FieldsChecked(t, t.types[n], c);
    }
  }

  /** The check on embedded types is enough for the exact conditions of the two properties it is for. */
  lemma CheckedMeetsConditions(t: Table, c: Checks, size: int, s: set<string>)
    requires Grounded(t.types) && CheckedTable(t, c) && c.defined
    ensures EmbeddingsSuit(t) && !Loops(t, size, s)
  {
    CheckedIsAligned(t, c);
    hide FieldsChecked, AllAligned, InlineDefined, Loops, EmbeddingsSuit, TableOk, NaturallyAligned;
    OlderMakesNoRing(t, size, s);
    AlignedIsNatural(t);
    AlignedExactly(t);
  }

  lemma AlignedIsNatural(t: Table)
    requires Grounded(t.types) && AllAligned(t)
    ensures NaturallyAligned(t)
  {
    hide AllAligned, CellAlignment, ConstantPath;
    forall n, address, path, cell, at |
      Object(t, n, address) && ConstantPath(path)
      && Replay(t, Ref(Simple(n), address + t.types[n].BoxOffset(), 0, None), path) == Some(Mem(cell, at, 0))
      ensures IsMultiple(at, CellAlignment(t, cell))
    {
      CellsAreAligned(t, n, address, path, cell, at, 0, 0);
      assert at + 0 * 0 == at;
    }
  }

  lemma CheckedIsBehindStart(t: Table, c: Checks)
    requires CheckedTable(t, c) && c.behindStart
    ensures AllNonNegative(t) && EmbeddedNonNegative(t)
  {
    forall n <- t.types ensures NonNegative(t, n) {
      assert FieldsChecked(t, t.types[n], c);
    }
  }

  lemma CheckedIsAnswerable(t: Table, c: Checks)
    requires CheckedTable(t, c) && c.answerable
    ensures Answerable(t)
  {
    forall n <- Structures(t)
      ensures forall f <- t.types[n].kind.fields :: !f.skip ==> AnswerableField(t, f)
    {
      assert FieldsChecked(t, t.types[n], c);
    }
  }

  // ---------------------------------------------------------------------------------------------
  // Every form that passes keeps it
  // ---------------------------------------------------------------------------------------------

  lemma GrowthKeepsAnswerable(t: Table, t': Table, f: Field)
    requires Grown(t, t') && ForwardOk(t) && AnswerableField(t, f)
    ensures AnswerableField(t', f)
  {
  }

  lemma GrowthKeepsChecked(t: Table, t': Table, d: TypeDef, c: Checks)
    requires Grown(t, t') && ForwardOk(t) && TypeOk(t, d) && FieldsChecked(t, d, c)
    ensures FieldsChecked(t', d, c)
  {
    hide FieldOk, AnswerableField, Grown, ForwardOk;
    if d.kind.StructKind? {
      forall f <- d.kind.fields ensures FieldChecked(t', d, f, c) {
        assert FieldOk(t, d, f) && FieldChecked(t, d, f, c);
        if c.defined { GrowthKeepsAligned(t, t', d, f); }
        if c.answerable && !f.skip { GrowthKeepsAnswerable(t, t', f); }
      }
    }
  }

  lemma GrowthKeepsAligned(t: Table, t': Table, d: TypeDef, f: Field)
    requires Grown(t, t') && ForwardOk(t) && d.kind.StructKind? && FieldOk(t, d, f)
    requires FieldAligned(t, f) && EmbedsOlder(t, d, f)
    ensures FieldAligned(t', f) && EmbedsOlder(t', d, f)
  {
    GrowthKeepsField(t, t', d, f);
  }

  lemma InheritanceChecked(t: Table, parent: TypeDef, d: TypeDef, c: Checks)
    requires FieldsChecked(t, parent, c) && parent.kind.StructKind? && d.kind.StructKind? && parent.serial <= d.serial
    requires d.kind.fields == parent.kind.fields
    ensures FieldsChecked(t, d, c)
  {
  }

  /** The alignment recorded is the one the field's type asks for. */
  lemma NewFieldAligned(t: Table, k: Kind, decl: FieldDecl)
    requires TableOk(t) && k.StructKind? && AddField(t, k, decl).Ok? && (decl.isInline ==> decl.spec.base in t.types)
    ensures var k' := AddField(t, k, decl).value.0; FieldAligned(t, k'.fields[|k'.fields| - 1])
  {
    hide BuiltinsPresent, AllMethodsOk, KindsInherited, ForwardOk, FieldPlaced, SizeInType;
    NewFieldPlaced(t, k, decl);
  }

  lemma NewFieldChecked(t: Table, d: TypeDef, decl: FieldDecl, c: Checks)
    requires TableOk(t) && d.serial == |t.types| && d.kind.StructKind? && TypeOk(t, d)
    requires AddField(t, d.kind, decl).Ok? && DeclPasses(t, decl, c)
    ensures var k' := AddField(t, d.kind, decl).value.0; FieldChecked(t, d.(kind := k'), k'.fields[|k'.fields| - 1], c)
  {
    hide BuiltinsPresent, AllMethodsOk, KindsInherited, ForwardOk, FieldAligned, Known, Askable, SizeInType;
    if c.defined { NewFieldAligned(t, d.kind, decl); }
    var alignment := AlignmentInType(t, NewField(decl)).value;
    AlignUpIsLeast(d.kind.size, alignment, d.kind.size);
  }

  lemma AddFieldChecked(t: Table, d: TypeDef, decl: FieldDecl, c: Checks)
    requires TableOk(t) && d.serial == |t.types| && d.kind.StructKind? && TypeOk(t, d) && FieldsChecked(t, d, c)
    requires AddField(t, d.kind, decl).Ok? && DeclPasses(t, decl, c)
    ensures FieldsChecked(t, d.(kind := AddField(t, d.kind, decl).value.0), c)
  {
    hide TableOk, TypeOk, FieldAligned, AnswerableField, DeclPasses;
    NewFieldChecked(t, d, decl, c);
    var k' := AddField(t, d.kind, decl).value.0;
    forall f <- k'.fields ensures FieldChecked(t, d.(kind := k'), f, c) {
      if f in d.kind.fields { assert FieldChecked(t, d, f, c); }
    }
  }

  lemma {:induction false} AddFieldsChecked(t: Table, d: TypeDef, decls: seq<FieldDecl>, c: Checks)
    requires TableOk(t) && d.serial == |t.types| && d.kind.StructKind? && TypeOk(t, d) && FieldsChecked(t, d, c)
    requires AddFields(t, d.kind, decls).Ok? && forall decl <- decls :: DeclPasses(t, decl, c)
    ensures FieldsChecked(t, d.(kind := AddFields(t, d.kind, decls).value), c)
    decreases |decls|
  {
    hide TableOk, TypeOk, FieldsChecked, DeclPasses, AddField;
    if decls != [] {
      AddFieldChecked(t, d, decls[0], c);
      AddFieldKeeps(t, d, decls[0]);
      AddFieldsChecked(t, d.(kind := AddField(t, d.kind, decls[0]).value.0), decls[1..], c);
    }
  }

  lemma ForwardDeclareChecked(t: Table, name: string, parent: string, c: Checks)
    requires CheckedTable(t, c) && parent in t.types && t.types[parent].kind.StructKind?
    requires ForwardDeclare(t, name, parent).Ok?
    ensures CheckedTable(ForwardDeclare(t, name, parent).value, c)
  {
    hide FieldsChecked, TypeOk, BuiltinsPresent, AllMethodsOk, KindsInherited;
    ForwardDeclareKeeps(t, name, parent);
    ForwardDeclareGrows(t, name, parent);
    var t' := ForwardDeclare(t, name, parent).value;
    forall n <- t'.types ensures FieldsChecked(t', t'.types[n], c) { GrowthKeepsChecked(t, t', t.types[n], c); }
  }

  lemma FinishChecked(t: Table, form: DeftypeForm, kind: Kind, c: Checks)
    requires CheckedTable(t, c) && form.parent in t.types && form.parent != "" && form.name != "" && !kind.NullKind?
    requires var d0 := TypeDef(form.name, form.parent, |t.types|, kind, [], None);
        TypeOk(t, d0) && FieldsChecked(t, d0, c)
    requires t.types[form.parent].kind.StructKind? ==> kind.StructKind?
    requires FinishDeftype(t, form, kind).Ok?
    ensures CheckedTable(FinishDeftype(t, form, kind).value, c)
  {
    hide FieldChecked, TypeOk, AllMethodsOk, KindsInherited, ForwardOk;
    FinishKeeps(t, form, kind);
    var d0 := TypeDef(form.name, form.parent, |t.types|, kind, [], None);
    var d := DeclareMethods(t.types, d0, form.methods).value;
    var t' := FinishDeftype(t, form, kind).value;
    if d.name !in t.types {
      AddTypeGrows(t, d);
      forall n <- t'.types ensures FieldsChecked(t', t'.types[n], c) {
        if n == d.name {
          assert t'.types[n] == d;
          GrowthKeepsChecked(t, t', d0, c);
          if kind.StructKind? { InheritanceChecked(t', d0, d, c); }
        } else {
          GrowthKeepsChecked(t, t', t.types[n], c);
        }
      }
    }
  }

  /** The check made before the form still holds once the form's name is declared. */
  lemma DeclareKeepsPassing(t: Table, t': Table, decls: seq<FieldDecl>, c: Checks)
    requires Grown(t, t') && ForwardOk(t) && forall decl <- decls :: DeclPasses(t, decl, c)
    ensures forall decl <- decls :: DeclPasses(t', decl, c)
  {
    hide ForwardOk, AnswerableField;
    forall decl <- decls ensures DeclPasses(t', decl, c) {
      assert DeclPasses(t, decl, c);
      if c.answerable && !decl.skip { GrowthKeepsAnswerable(t, t', NewField(decl)); }
    }
  }

  lemma DefineStructureChecked(t: Table, form: DeftypeForm, basic: bool, c: Checks)
    requires CheckedTable(t, c) && form.parent != "" && form.name != "" && DefineStructure(t, form, basic).Ok?
    requires FormPasses(t, Deftype(form), c)
    ensures CheckedTable(DefineStructure(t, form, basic).value, c)
  {
    hide FieldsChecked, DeclPasses, TypeOk, AllMethodsOk, KindsInherited, ForwardOk;
    var parent := t.types[form.parent];
    var kind := if basic then "basic" else "structure";
    ForwardDeclareGrows(t, form.name, kind);
    ForwardDeclareChecked(t, form.name, kind, c);
    var t' := ForwardDeclare(t, form.name, kind).value;
    DeclareKeepsPassing(t, t', form.fields, c);
    var k0 := StructKind(parent.kind.fields, parent.kind.dynamic, parent.kind.size, false, false, 0, basic, false);
    var d0 := TypeDef(form.name, form.parent, |t'.types|, k0, [], None);
    assert TypeOk(t', parent) && FieldsChecked(t', parent, c);
    InheritanceKeeps(t', parent, d0);
    InheritanceChecked(t', parent, d0, c);
    AddFieldsKeep(t', d0, form.fields);
    AddFieldsChecked(t', d0, form.fields, c);
    var k := AddFields(t', k0, form.fields).value;
    var k' := k.(packed := form.packMe, misaligned := form.allowMisaligned, final := form.final);
    OptionsKeep(t', d0.(kind := k), d0.(kind := k'));
    InheritanceChecked(t', d0.(kind := k), d0.(kind := k'), c);
    FinishChecked(t', form, k', c);
  }

  lemma ProcessChecked(t: Table, form: Form, c: Checks)
    requires CheckedTable(t, c) && Process(t, form).Ok? && FormPasses(t, form, c)
    ensures CheckedTable(Process(t, form).value, c)
  {
    hide KindsInherited, ForwardOk, BuiltinsPresent, AllMethodsOk, DefineStructure, FinishDeftype, ForwardDeclare,
        FieldChecked,
         FormPasses;
    match form
    case DeclareType(name, parent) => ForwardDeclareChecked(t, name, parent, c);
    case Deftype(f) =>
      if CheckBase(t, "basic", f.parent) == Some(true) {
        DefineStructureChecked(t, f, true, c);
      } else if CheckBase(t, "structure", f.parent) == Some(true) {
        DefineStructureChecked(t, f, false, c);
      } else {
        assert TypeOk(t, t.types[f.parent]);
        FinishChecked(t, f, t.types[f.parent].kind.(bitfield := true), c);
      }
  }

  /** A run in which every form passes the checks when its turn comes. */
  ghost predicate BuildsPassing(t: Table, forms: seq<Form>, t': Table, c: Checks)
    decreases |forms|
  {
    if forms == [] then t' == t
    else
      && Numbered(t) && FormPasses(t, forms[0], c) && Process(t, forms[0]).Ok?
      && BuildsPassing(Process(t, forms[0]).value, forms[1..], t', c)
  }

  lemma {:induction false} EveryPassingRun(t: Table, forms: seq<Form>, t': Table, c: Checks)
    requires CheckedTable(t, c) && BuildsPassing(t, forms, t', c)
    ensures CheckedTable(t', c)
    decreases |forms|
  {
    if forms != [] {
      ProcessChecked(t, forms[0], c);
      EveryPassingRun(Process(t, forms[0]).value, forms[1..], t', c);
    }
  }

  /**
   Any run of forms leaves a table on which the reverse lookup is sound and whose method ids are in order. Each
   check that all its forms pass adds something: natural alignment and a lookup that returns; completeness for
   loads; no lookup that fails.
   */
  lemma BuiltTables(t: Table, forms: seq<Form>, t': Table, c: Checks)
    requires TableOk(t) && Builds(t, forms, t')
    ensures FieldsFit(t') && AllMethodsOk(t'.types)
    ensures CheckedTable(t, c) && BuildsPassing(t, forms, t', c) ==>
              && (c.defined ==> AllAligned(t') && InlineDefined(t'))
              && (c.behindStart ==> AllNonNegative(t') && EmbeddedNonNegative(t'))
              && (c.answerable ==> Answerable(t'))
  {
    hide TableOk, FieldsFit, AllMethodsOk, AllAligned, InlineDefined, AllNonNegative, EmbeddedNonNegative, Answerable,
        FieldsChecked;
    EveryRunKeeps(t, forms, t');
    TableOkFits(t');
    OkMethods(t');
    if CheckedTable(t, c) && BuildsPassing(t, forms, t', c) {
      EveryPassingRun(t, forms, t', c);
      if c.defined { CheckedIsAligned(t', c); }
      if c.behindStart { CheckedIsBehindStart(t', c); }
      if c.answerable { CheckedIsAnswerable(t', c); }
    }
  }

  lemma OkMethods(t: Table)
    requires TableOk(t)
    ensures AllMethodsOk(t.types)
  {
  }

  /**
   With all three checks nothing is left open: on the table of a passing run the lookup of a load returns, and with
   a limit that is not reached its hits are exactly the load paths that lead to the offset asked for.
   */
  lemma PassingRunLookups(t: Table, forms: seq<Form>, t': Table, input: Input, max: int, fuel: nat, path: seq<Token>,
                          cell: TypeSpec, rel: int)
    requires CheckedTable(t, ALL_CHECKS) && BuildsPassing(t, forms, t', ALL_CHECKS) && Numbered(t')
    requires Askable(t', input.base) && fuel >= Depth(t', input.base)
    requires input.deref.Some? && input.stride == 0 && Accepts(t', cell, input.deref.value)
    requires LoadPath(t', From(input.base), path, cell, rel)
    ensures Search(t', input, [], [], max, fuel).Done?
    ensures |Search(t', input, [], [], max, fuel).hits| < max ==>
              (Hit(false, cell, path) in Search(t', input, [], [], max, fuel).hits <==> rel == input.offset)
  {
    EveryPassingRun(t, forms, t', ALL_CHECKS);
    CheckedIsAligned(t', ALL_CHECKS);
    CheckedIsBehindStart(t', ALL_CHECKS);
    CheckedIsAnswerable(t', ALL_CHECKS);
    TableOkFits(t');
    hide TableOk, FieldsChecked, AllAligned, FieldFits, DistinctFields, InlineDefined, Answerable, AllNonNegative,
        Search, InOrder;
    LookupIsExact(t', input, max, fuel, path, cell, rel);
    if rel == input.offset {
      NoneEarly(t', input);
      NonNegativeInOrder(t', input, From(input.base), path, cell);
    }
  }

  lemma NoneEarly(t: Table, input: Input)
    requires AllNonNegative(t)
    ensures EntersNonNegative(t, input.base)
  {
  }
}

/**
 The type system as the source keeps it: type objects under construction, and the table of
 types and forward declarations, both updated in place. Each method is proved to take the state
 where the functions of `Layout`, `MethodTables` and `Deftypes` say.
 */
module TypeSystemState {
  import opened TypeTable
  import opened Wrappers
  import opened Layout
  import opened MethodTables
  import opened Deftypes

  class TypeObject {
    const name: string
    const parent: string
    const serial: nat
    var kind: Kind
    var methods: seq<Method>
    var newMethod: Option<Method>

    constructor (name: string, parent: string, serial: nat, kind: Kind)
      ensures Def() == TypeDef(name, parent, serial, kind, [], None)
      ensures this.name == name && this.parent == parent && this.serial == serial
    {
      this.name, this.parent, this.serial, this.kind := name, parent, serial, kind;
      methods, newMethod := [], None;
    }

    function Def(): TypeDef
      reads this
    {
      TypeDef(name, parent, serial, kind, methods, newMethod)
    }

    /** Places one field. A thrown exception leaves the object in no particular state. */
    method AddFieldToType(t: Table, decl: FieldDecl) returns (r: Result<int>)
      requires kind.StructKind?
      modifies this`kind
      ensures kind.StructKind?
      ensures match AddField(t, old(kind), decl)
              case Ok((k, offset)) => kind == k && r == Ok(offset)
              case Thrown => r == Thrown
    {
      if FindField(kind.fields, decl.name).Some? { return Thrown; }
      var field := NewField(decl);
      if decl.dynamic { kind := kind.(dynamic := true); }
      var alignment := AlignmentInType(t, field);
      if alignment.None? || alignment.value <= 0 { return Thrown; }
      var offset := decl.offset;
      if offset == -1 {
        offset := Align(kind.size, alignment.value);
      } else {
        var aligned := Align(offset, alignment.value);
        if aligned != offset { return Thrown; }
      }
      var size := SizeInType(t, field);
      if size.None? { return Thrown; }
      if kind.size < offset + size.value {
        kind := StructKind(kind.fields, kind.dynamic, offset + size.value, kind.packed, kind.misaligned,
                           kind.boxOffset, kind.basic, kind.final);
      }
      kind := kind.(fields := kind.fields + [field.(offset := offset, alignment := alignment.value)]);
      r := Ok(offset);
    }

    /** The id after the last method of the chain that replaces nothing. */
    method GetNextMethodId(types: Types) returns (id: int)
      requires ParentDefined(types, Def())
      ensures id == NextId(types, Def())
    {
      var d := Def();
      while true
        invariant ParentDefined(types, d) && NextId(types, d) == NextId(types, Def())
        decreases d.serial
      {
        var i := |d.methods|;
        assert d.methods[..i] == d.methods;
        while i > 0
          invariant 0 <= i <= |d.methods| && LastOwnId(d.methods[..i]) == LastOwnId(d.methods)
        {
          assert d.methods[..i][..i - 1] == d.methods[..i - 1];
          i := i - 1;
          if !d.methods[i].overriding { return d.methods[i].id + 1; }
        }
        if !d.HasParent() { return 1; }
        d := types[d.parent];
      }
    }

    /** The nearest entry for a name, going up the chain. */
    method TryLookupMethod(types: Types, method_name: string) returns (m: Option<Method>)
      requires ParentDefined(types, Def())
      ensures m == LookupName(types, Def(), method_name)
    {
      var d := Def();
      while true
        invariant ParentDefined(types, d) && LookupName(types, d, method_name) == LookupName(types, Def(), method_name)
        decreases d.serial
      {
        if method_name == "new" {
          if d.newMethod.Some? { return d.newMethod; }
        } else {
          for i := 0 to |d.methods|
            invariant FindByName(d.methods[i..], method_name) == FindByName(d.methods, method_name)
          {
            if d.methods[i].name == method_name { return Some(d.methods[i]); }
          }
        }
        if !d.HasParent() { return None; }
        d := types[d.parent];
      }
    }

    method DeclareMethodHere(types: Types, decl: MethodDecl) returns (r: Result<Method>)
      requires ParentDefined(types, Def())
      modifies this`methods, this`newMethod
      ensures match DeclareMethod(types, old(Def()), decl)
              case Ok((d, m)) => Def() == d && r == Ok(m)
              case Thrown => r == Thrown && Def() == old(Def())
    {
      if decl.name == "new" {
        if decl.replace { return Thrown; }
        if newMethod.Some? {
          if !CompatibleChild(newMethod.value.spec, decl.spec, name) { return Thrown; }
          return Ok(newMethod.value);
        }
        var m := Method(0, "new", decl.spec, name, false, false);
        newMethod := Some(m);
        return Ok(m);
      }
      var existing := TryLookupMethod(types, decl.name);
      var id;
      if existing.Some? {
        if !decl.replace {
          if !CompatibleChild(existing.value.spec, decl.spec, name) { return Thrown; }
          if (existing.value.noVirtual || decl.noVirtual) && existing.value.definedIn != name { return Thrown; }
          if decl.noVirtual != existing.value.noVirtual { return Thrown; }
          return Ok(existing.value);
        }
        id := existing.value.id;
      } else {
        if decl.replace { return Thrown; }
        id := GetNextMethodId(types);
      }
      var m := Method(id, decl.name, decl.spec, name, decl.noVirtual, decl.replace);
      if LastOwnId(methods).Some? && LastOwnId(methods).value + 1 != id { return Thrown; }
      methods := methods + [m];
      r := Ok(m);
    }
  }

  // ---------------------------------------------------------------------------------------------
  // What a form leaves behind, also when it throws
  // ---------------------------------------------------------------------------------------------

  /** A type that turns out not to be what it was declared as stays in the table, and so does its declaration. */
  function AfterAddType(t: Table, d: TypeDef): Table
    requires Numbered(t) && d.serial == |t.types| && (d.HasParent() ==> d.parent in t.types)
  {
    match Deftypes.AddType(t, d)
    case Ok(t') => t'
    case Thrown =>
      if d.name in t.types || (d.name !in ROOTS && (d.parent in t.forward || d.parent !in t.types)) then t
      else t.(types := t.types[d.name := d])
  }

  function AfterFinish(t: Table, form: DeftypeForm, kind: Kind): Table
    requires Numbered(t) && form.parent in t.types && form.parent != "" && !kind.NullKind?
  {
    match DeclareMethods(t.types, TypeDef(form.name, form.parent, |t.types|, kind, [], None), form.methods)
    case Thrown => t
    case Ok(d) =>
      if !AssertHolds(form.sizeAssert, kind.size) || !AssertHolds(form.methodCountAssert, NextId(t.types, d)) then t
      else AfterAddType(t, d)
  }

  /** The declaration of the name stays. */
  function AfterStructure(t: Table, form: DeftypeForm, basic: bool): Table
    requires Numbered(t) && form.parent != ""
  {
    if form.parent !in t.types then t
    else
      var parent := t.types[form.parent].kind;
      if !parent.StructKind? || (basic && (!parent.basic || parent.final)) then t
      else
        match ForwardDeclare(t, form.name, if basic then "basic" else "structure")
        case Thrown => t
        case Ok(t') =>
          match AddFields(t', StructKind(parent.fields, parent.dynamic, parent.size, false, false, 0, basic, false),
                          form.fields)
          case Thrown => t'
          case Ok(k) =>
            if (basic && form.allowMisaligned) || (!basic && form.final) then t'
            else AfterFinish(t', form,
                             k.(packed := form.packMe, misaligned := form.allowMisaligned, final := form.final))
  }

  function AfterBitfield(t: Table, form: DeftypeForm): Table
    requires Numbered(t) && form.parent != ""
  {
    if form.parent !in t.types || !t.types[form.parent].kind.ValueKind? then t
    else AfterFinish(t, form, t.types[form.parent].kind.(bitfield := true))
  }

  function AfterForm(t: Table, form: DeftypeForm): Table
    requires Numbered(t)
  {
    if form.name == "" || form.parent == "" then t
    else
      match CheckBase(t, "basic", form.parent)
      case None => t
      case Some(true) => AfterStructure(t, form, true)
      case Some(false) =>
        match CheckBase(t, "structure", form.parent)
        case None => t
        case Some(true) => AfterStructure(t, form, false)
        case Some(false) => if CheckBase(t, "integer", form.parent) == Some(true) then AfterBitfield(t, form) else t
  }

  /** No type that was there is changed, and a table that was made without throwing is the one left. */
  predicate Grows(t: Table, after: Table, r: Result<Table>) {
    (forall n <- t.types :: n in after.types && after.types[n] == t.types[n]) && (r.Ok? ==> after == r.value)
  }

  lemma FormsChangeNoType(t: Table, form: DeftypeForm)
    requires Numbered(t)
    ensures Grows(t, AfterForm(t, form), ParseDeftype(t, form))
  {
    hide CheckBase, AfterStructure, AfterBitfield, DefineStructure, DefineBitfield;
    if form.name != "" && form.parent != "" {
      StructureChangesNoType(t, form, true);
      StructureChangesNoType(t, form, false);
      BitfieldChangesNoType(t, form);
    }
  }

  lemma FinishChangesNoType(t: Table, form: DeftypeForm, kind: Kind)
    requires Numbered(t) && form.parent in t.types && form.parent != "" && !kind.NullKind?
    ensures Grows(t, AfterFinish(t, form, kind), FinishDeftype(t, form, kind))
  {
    hide DeclareMethods, NextId, AssertHolds, Comparable, Agrees;
  }

  lemma StructureChangesNoType(t: Table, form: DeftypeForm, basic: bool)
    requires Numbered(t) && form.parent != ""
    ensures Grows(t, AfterStructure(t, form, basic), DefineStructure(t, form, basic))
  {
    hide AddFields, AfterFinish, FinishDeftype, ForwardDeclare, Grows;
    var kind := if basic then "basic" else "structure";
    DeclaringChangesNoType(t, form.name, kind);
    if form.parent in t.types && t.types[form.parent].kind.StructKind? && ForwardDeclare(t, form.name, kind).Ok? {
      var t', parent := ForwardDeclare(t, form.name, kind).value, t.types[form.parent].kind;
      var k := AddFields(t', StructKind(parent.fields, parent.dynamic, parent.size, false, false, 0, basic, false),
                         form.fields);
      if k.Ok? {
        var k' := k.value.(packed := form.packMe, misaligned := form.allowMisaligned, final := form.final);
        FinishChangesNoType(t', form, k');
        GrowsAlike(t, t', AfterFinish(t', form, k'), FinishDeftype(t', form, k'));
      }
    }
    NothingGrows(t, t);
  }

  lemma DeclaringChangesNoType(t: Table, name: string, kind: string)
    requires Numbered(t)
    ensures ForwardDeclare(t, name, kind).Ok? ==>
        ForwardDeclare(t, name, kind).value.types == t.types && Grows(t, ForwardDeclare(t, name, kind).value, Thrown)
  {
    hide Agrees;
  }

  lemma NothingGrows(t: Table, t': Table)
    requires t'.types == t.types
    ensures Grows(t, t', Thrown)
  {
  }

  lemma GrowsAlike(t: Table, t': Table, after: Table, r: Result<Table>)
    requires t'.types == t.types && Grows(t', after, r)
    ensures Grows(t, after, r)
  {
  }

  lemma BitfieldChangesNoType(t: Table, form: DeftypeForm)
    requires Numbered(t) && form.parent != ""
    ensures Grows(t, AfterBitfield(t, form), DefineBitfield(t, form))
  {
    hide AfterFinish, FinishDeftype;
    if form.parent in t.types && t.types[form.parent].kind.ValueKind? {
      FinishChangesNoType(t, form, t.types[form.parent].kind.(bitfield := true));
    }
  }

  class TypeSystem {
    var types: Types
    var forwardDeclared: map<string, string>

    constructor (types: Types, forwardDeclared: map<string, string>)
      ensures Table() == TypeTable.Table(types, forwardDeclared)
    {
      this.types, this.forwardDeclared := types, forwardDeclared;
    }

    function Table(): TypeTable.Table
      reads this
    {
      TypeTable.Table(types, forwardDeclared)
    }

    method ForwardDeclareTypeAs(name: string, parent: string) returns (ok: bool)
      requires Grounded(types)
      modifies this
      ensures match ForwardDeclare(old(Table()), name, parent)
              case Ok(t) => ok && Table() == t
              case Thrown => !ok && Table() == old(Table())
    {
      ok := true;
      if name in types {
        return parent in types && Agrees(Table(), parent, name);
      }
      if name !in forwardDeclared {
        forwardDeclared := forwardDeclared[name := parent];
        return;
      }
      var previous := forwardDeclared[name];
      if previous != parent {
        if previous !in types || parent !in types { return false; }
        if Agrees(Table(), previous, parent) {
          forwardDeclared := forwardDeclared[name := parent];
        } else {
          ok := Agrees(Table(), parent, previous);
        }
      }
    }

    /** A type that turns out not to be what it was declared as stays in the table when this throws. */
    method AddType(entry: TypeObject) returns (ok: bool)
      requires Numbered(Table()) && entry.serial == |types| && (entry.Def().HasParent() ==> entry.parent in types)
      modifies this
      ensures ok <==> Deftypes.AddType(old(Table()), entry.Def()).Ok?
      ensures Table() == AfterAddType(old(Table()), entry.Def())
    {
      var d := entry.Def();
      if d.name in types {
        return !d.kind.NullKind? && Comparable(types[d.name]) == Comparable(d);
      }
      if d.name !in ROOTS && (d.parent in forwardDeclared || d.parent !in types) { return false; }
      types := types[d.name := d];
      assert Grounded(types);
      if d.name in forwardDeclared {
        if !Agrees(Table(), forwardDeclared[d.name], d.name) { return false; }
      }
      forwardDeclared := forwardDeclared - {d.name};
      ok := true;
    }

    /** The field list of a deftype. */
    method ParseFields(entry: TypeObject, decls: seq<FieldDecl>) returns (ok: bool)
      requires entry.kind.StructKind?
      modifies entry`kind
      ensures entry.kind.StructKind?
      ensures match AddFields(Table(), old(entry.kind), decls)
              case Ok(k) => ok && entry.kind == k
              case Thrown => !ok
    {
      ghost var answer := AddFields(Table(), entry.kind, decls);
      for i := 0 to |decls|
        invariant entry.kind.StructKind? && AddFields(Table(), entry.kind, decls[i..]) == answer
      {
        var offset := entry.AddFieldToType(Table(), decls[i]);
        if offset.Thrown?
            || (decls[i].offsetAssert.Some? && decls[i].offsetAssert.value != offset.value) { return false; }
        assert decls[i..][1..] == decls[i + 1..];
      }
      ok := true;
    }

    method ParseMethods(entry: TypeObject, decls: seq<MethodDecl>) returns (ok: bool)
      requires ParentDefined(types, entry.Def())
      modifies entry`methods, entry`newMethod
      ensures match DeclareMethods(types, old(entry.Def()), decls)
              case Ok(d) => ok && entry.Def() == d
              case Thrown => !ok
    {
      ghost var answer := DeclareMethods(types, entry.Def(), decls);
      for i := 0 to |decls|
        invariant ParentDefined(types, entry.Def()) && DeclareMethods(types, entry.Def(), decls[i..]) == answer
      {
        var m := entry.DeclareMethodHere(types, decls[i]);
        if m.Thrown? || (decls[i].id.Some? && decls[i].id.value != m.value.id) { return false; }
        assert decls[i..][1..] == decls[i + 1..];
      }
      ok := true;
    }

    method Finish(form: DeftypeForm, entry: TypeObject) returns (ok: bool)
      requires Numbered(Table()) && form.parent in types && form.parent != "" && !entry.kind.NullKind?
      requires entry.Def() == TypeDef(form.name, form.parent, |types|, entry.kind, [], None)
      modifies this, entry
      ensures ok <==> FinishDeftype(old(Table()), form, old(entry.kind)).Ok?
      ensures Table() == AfterFinish(old(Table()), form, old(entry.kind))
    {
      ok := ParseMethods(entry, form.methods);
      if !ok || !AssertHolds(form.sizeAssert, entry.kind.size) { return false; }
      var methodCount := entry.GetNextMethodId(types);
      if !AssertHolds(form.methodCountAssert, methodCount) { return false; }
      ok := AddType(entry);
    }

    method ParseStructure(form: DeftypeForm, basic: bool) returns (ok: bool)
      requires Numbered(Table()) && form.parent != ""
      modifies this
      ensures ok <==> DefineStructure(old(Table()), form, basic).Ok?
      ensures Table() == AfterStructure(old(Table()), form, basic)
    {
      hide ForwardDeclare, AddFields, FinishDeftype, AfterFinish;
      DeclaringChangesNoType(Table(), form.name, if basic then "basic" else "structure");
      if form.parent !in types { return false; }
      var parent := types[form.parent].kind;
      if !parent.StructKind? || (basic && (!parent.basic || parent.final)) { return false; }
      ok := ForwardDeclareTypeAs(form.name, if basic then "basic" else "structure");
      if !ok { return; }
      var entry := new TypeObject(form.name, form.parent, |types|,
                                   StructKind(parent.fields, parent.dynamic, parent.size, false, false, 0, basic,
                                              false));
      ok := ParseFields(entry, form.fields);
      if !ok || (basic && form.allowMisaligned) || (!basic && form.final) { return false; }
      entry.kind := entry.kind.(packed := form.packMe, misaligned := form.allowMisaligned, final := form.final);
      ok := Finish(form, entry);
    }

    method ParseBitfield(form: DeftypeForm) returns (ok: bool)
      requires Numbered(Table()) && form.parent != ""
      modifies this
      ensures ok <==> DefineBitfield(old(Table()), form).Ok?
      ensures Table() == AfterBitfield(old(Table()), form)
    {
      if form.parent !in types || !types[form.parent].kind.ValueKind? { return false; }
      var entry := new TypeObject(form.name, form.parent, |types|, types[form.parent].kind.(bitfield := true));
      ok := Finish(form, entry);
    }

    /** One deftype form, from the table as it was to the table as the functions say, also when it throws. */
    method ParseDeftypeForm(form: DeftypeForm) returns (ok: bool)
      requires Numbered(Table())
      modifies this
      ensures ok <==> ParseDeftype(old(Table()), form).Ok?
      ensures Table() == AfterForm(old(Table()), form) && (ok ==> Table() == ParseDeftype(old(Table()), form).value)
    {
      FormsChangeNoType(Table(), form);
      if form.name == "" || form.parent == "" { return false; }
      var isBasic := CheckBase(Table(), "basic", form.parent);
      if isBasic.None? { return false; }
      if isBasic.value {
        ok := ParseStructure(form, true);
        return;
      }
      var isStructure := CheckBase(Table(), "structure", form.parent);
      if isStructure.None? { return false; }
      if isStructure.value {
        ok := ParseStructure(form, false);
        return;
      }
      var isInteger := CheckBase(Table(), "integer", form.parent);
      if isInteger != Some(true) { return false; }
      ok := ParseBitfield(form);
    }
  }
}

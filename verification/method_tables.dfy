/**
 Method tables: how `declare_method` hands out ids, and how methods are looked up by name and
 by id along the chain of parents.
 */
module MethodTables {
  import opened TypeTable
  import opened Wrappers

  function FindByName(ms: seq<Method>, name: string): Option<Method> {
    if ms == [] then None else if ms[0].name == name then Some(ms[0]) else FindByName(ms[1..], name)
  }

  function FindById(ms: seq<Method>, id: int): Option<Method> {
    if ms == [] then None else if ms[0].id == id then Some(ms[0]) else FindById(ms[1..], id)
  }

  /** The id of the last method that does not replace one of a parent. */
  function LastOwnId(ms: seq<Method>): Option<int> {
    if ms == [] then None
    else if !ms[|ms| - 1].overriding then Some(ms[|ms| - 1].id)
    else LastOwnId(ms[..|ms| - 1])
  }

  /** The parent of a type, which may itself still be under construction, is in the table. */
  ghost predicate ParentDefined(types: Types, d: TypeDef) {
    Grounded(types) && (d.HasParent() ==> d.parent in types && types[d.parent].serial < d.serial)
  }

  function LookupName(types: Types, d: TypeDef, name: string): Option<Method>
    requires ParentDefined(types, d)
    decreases d.serial
  {
    var own := if name == "new" then d.newMethod else FindByName(d.methods, name);
    if own.Some? then own
    else if d.HasParent() then LookupName(types, types[d.parent], name)
    else None
  }

  /** Id 0 is the `new` method. */
  function LookupId(types: Types, d: TypeDef, id: nat): Option<Method>
    requires ParentDefined(types, d)
    decreases d.serial
  {
    var own := if id == 0 then d.newMethod else FindById(d.methods, id);
    if own.Some? then own
    else if d.HasParent() then LookupId(types, types[d.parent], id)
    else None
  }

  function NextId(types: Types, d: TypeDef): int
    requires ParentDefined(types, d)
    decreases d.serial
  {
    if LastOwnId(d.methods).Some? then LastOwnId(d.methods).value + 1
    else if d.HasParent() then NextId(types, types[d.parent])
    else 1
  }

  /** A child may have its own name where the parent says `_type_`. */
  predicate CompatibleChild(expected: TypeSpec, actual: TypeSpec, child: string)
    decreases expected
  {
    && (actual.base == expected.base || (expected.base == "_type_" && actual.base == child))
    && |actual.args| == |expected.args|
    && forall i :: 0 <= i < |expected.args| ==> CompatibleChild(expected.args[i], actual.args[i], child)
  }

  datatype MethodDecl = MethodDecl(name: string, noVirtual: bool, replace: bool, spec: TypeSpec, id: Option<int>)

  /** Ids of new methods must continue the type's own ids; the source asserts it. */
  function AddMethod(d: TypeDef, m: Method): Result<(TypeDef, Method)> {
    if LastOwnId(d.methods).Some? && LastOwnId(d.methods).value + 1 != m.id then Thrown
    else Ok((d.(methods := d.methods + [m]), m))
  }

  function DeclareMethod(types: Types, d: TypeDef, decl: MethodDecl): (r: Result<(TypeDef, Method)>)
    requires ParentDefined(types, d)
    ensures r.Ok? ==> r.value.0 == d.(methods := r.value.0.methods, newMethod := r.value.0.newMethod)
  {
    if decl.name == "new" then
      if decl.replace then Thrown
      else if d.newMethod.Some? then
        if CompatibleChild(d.newMethod.value.spec, decl.spec, d.name) then Ok((d, d.newMethod.value)) else Thrown
      else
        var m := Method(0, "new", decl.spec, d.name, false, false);
        Ok((d.(newMethod := Some(m)), m))
    else
      match LookupName(types, d, decl.name)
      case Some(existing) =>
        if decl.replace then AddMethod(d, Method(existing.id, decl.name, decl.spec, d.name, decl.noVirtual, true))
        else if !CompatibleChild(existing.spec, decl.spec, d.name) then Thrown
        else if (existing.noVirtual || decl.noVirtual) && existing.definedIn != d.name then Thrown
        else if decl.noVirtual != existing.noVirtual then Thrown
        else Ok((d, existing))
      case None =>
        if decl.replace then Thrown
        else AddMethod(d, Method(NextId(types, d), decl.name, decl.spec, d.name, decl.noVirtual, false))
  }

  /** The methods of a deftype, in order, each with its id assertion. */
  function DeclareMethods(types: Types, d: TypeDef, decls: seq<MethodDecl>): (r: Result<TypeDef>)
    requires ParentDefined(types, d)
    ensures r.Ok? ==> r.value == d.(methods := r.value.methods, newMethod := r.value.newMethod)
    decreases |decls|
  {
    if decls == [] then Ok(d)
    else
      match DeclareMethod(types, d, decls[0])
      case Thrown => Thrown
      case Ok((d', m)) =>
        if decls[0].id.Some? && decls[0].id.value != m.id then Thrown
        else DeclareMethods(types, d', decls[1..])
  }

  // ---------------------------------------------------------------------------------------------
  // The invariant
  // ---------------------------------------------------------------------------------------------

  /** How many methods at the front replace inherited ones. */
  function Replaced(ms: seq<Method>): (k: nat)
    ensures k <= |ms|
    ensures forall i :: 0 <= i < k ==> ms[i].overriding
    ensures k < |ms| ==> !ms[k].overriding
  {
    if ms == [] || !ms[0].overriding then 0 else 1 + Replaced(ms[1..])
  }

  /** The first id that is free for the type's own methods. */
  function FirstOwnId(types: Types, d: TypeDef): int
    requires ParentDefined(types, d)
  {
    if d.HasParent() then NextId(types, types[d.parent]) else 1
  }

  function Inherited(types: Types, d: TypeDef, name: string): Option<Method>
    requires ParentDefined(types, d)
  {
    if d.HasParent() then LookupName(types, types[d.parent], name) else None
  }

  /**
   Replacements come first and keep the inherited id; then come the type's own methods, with new
   names and consecutive ids from the first free one.
   */
  ghost predicate MethodsOk(types: Types, d: TypeDef)
    requires ParentDefined(types, d)
  {
    var ms, k := d.methods, Replaced(d.methods);
    && (forall i :: 0 <= i < |ms| ==> ms[i].name != "new")
    && (forall i :: 0 <= i < k ==>
          Inherited(types, d, ms[i].name).Some? && Inherited(types, d, ms[i].name).value.id == ms[i].id)
    && (forall i :: k <= i < |ms| ==>
          !ms[i].overriding && ms[i].id == FirstOwnId(types, d) + i - k && Inherited(types, d, ms[i].name).None?)
    && (forall i, j :: k <= i < j < |ms| ==> ms[i].name != ms[j].name)
    && (d.newMethod.Some? ==> d.newMethod.value.id == 0 && d.newMethod.value.name == "new")
  }

  ghost predicate AllMethodsOk(types: Types) {
    Grounded(types) && forall n <- types :: MethodsOk(types, types[n])
  }

  lemma {:induction false} LastOwn(types: Types, d: TypeDef)
    requires ParentDefined(types, d) && MethodsOk(types, d)
    ensures NextId(types, d) == FirstOwnId(types, d) + |d.methods| - Replaced(d.methods)
  {
    var ms, k := d.methods, Replaced(d.methods);
    if k == |ms| { NoOwn(ms); } else { assert !ms[|ms| - 1].overriding; }
  }

  lemma {:induction false} NoOwn(ms: seq<Method>)
    requires forall i :: 0 <= i < |ms| ==> ms[i].overriding
    ensures LastOwnId(ms).None?
  {
    if ms != [] { NoOwn(ms[..|ms| - 1]); }
  }

  lemma {:induction false} FindByNameIs(ms: seq<Method>, name: string)
    ensures match FindByName(ms, name)
            case Some(m) => exists i :: 0 <= i < |ms| && ms[i] == m && m.name == name && forall j :: 0 <= j < i ==>
                ms[j].name != name
            case None => forall i :: 0 <= i < |ms| ==> ms[i].name != name
  {
    if ms != [] && ms[0].name != name {
      FindByNameIs(ms[1..], name);
      match FindByName(ms[1..], name)
      case Some(m) =>
        var i :| 0 <= i < |ms[1..]| && ms[1..][i] == m && forall j :: 0 <= j < i ==> ms[1..][j].name != name;
        assert ms[i + 1] == m;
        assert forall j :: 1 <= j < i + 1 ==> ms[j] == ms[1..][j - 1];
      case None =>
        assert forall i :: 1 <= i < |ms| ==> ms[i] == ms[1..][i - 1];
    }
  }

  lemma {:induction false} FindByIdIs(ms: seq<Method>, id: int)
    ensures match FindById(ms, id)
            case Some(m) => exists i :: 0 <= i < |ms| && ms[i] == m && m.id == id && forall j :: 0 <= j < i ==>
                ms[j].id != id
            case None => forall i :: 0 <= i < |ms| ==> ms[i].id != id
  {
    if ms != [] && ms[0].id != id {
      FindByIdIs(ms[1..], id);
      match FindById(ms[1..], id)
      case Some(m) =>
        var i :| 0 <= i < |ms[1..]| && ms[1..][i] == m && forall j :: 0 <= j < i ==> ms[1..][j].id != id;
        assert ms[i + 1] == m;
        assert forall j :: 1 <= j < i + 1 ==> ms[j] == ms[1..][j - 1];
      case None =>
        assert forall i :: 1 <= i < |ms| ==> ms[i] == ms[1..][i - 1];
    }
  }

  // ---------------------------------------------------------------------------------------------
  // What it gives
  // ---------------------------------------------------------------------------------------------

  /** Ids only grow down a chain. */
  lemma {:induction false} NextIdGrows(types: Types, d: TypeDef)
    requires ParentDefined(types, d) && AllMethodsOk(types) && MethodsOk(types, d)
    ensures 1 <= FirstOwnId(types, d) <= NextId(types, d)
    decreases d.serial
  {
    LastOwn(types, d);
    if d.HasParent() { NextIdGrows(types, types[d.parent]); }
  }

  /** A name leads to the entry that its id leads to. */
  lemma {:induction false} NameAgreesWithId(types: Types, d: TypeDef, name: string)
    requires ParentDefined(types, d) && AllMethodsOk(types) && MethodsOk(types, d)
    requires name != "new" && LookupName(types, d, name).Some?
    ensures var m := LookupName(types, d, name).value;
            m.name == name && 1 <= m.id < NextId(types, d) && LookupId(types, d, m.id) == Some(m)
    decreases d.serial
  {
    var m := LookupName(types, d, name).value;
    var ms, k := d.methods, Replaced(d.methods);
    LastOwn(types, d);
    NextIdGrows(types, d);
    FindByNameIs(ms, name);
    FindByIdIs(ms, m.id);
    if d.HasParent() {
      forall n | n != "new" && Inherited(types, d, n).Some?
        ensures Inherited(types, d, n).value.name == n && 1 <= Inherited(types, d, n).value.id < FirstOwnId(types, d)
        ensures LookupId(types, types[d.parent], Inherited(types, d, n).value.id) == Some(Inherited(types, d, n).value)
      {
        NameAgreesWithId(types, types[d.parent], n);
      }
    }
    if FindByName(ms, name).Some? {
      var i :| 0 <= i < |ms| && ms[i] == m && forall j :: 0 <= j < i ==> ms[j].name != name;
      assert FindById(ms, m.id).Some?;
      var i' :| 0 <= i' < |ms| && ms[i'] == FindById(ms, m.id).value && forall j :: 0 <= j < i' ==> ms[j].id != m.id;
      assert i' <= i;
      if i < k { assert Inherited(types, d, ms[i'].name).Some?; }
      assert i' == i;
    } else {
      assert Inherited(types, d, name) == Some(m);
      assert FindById(ms, m.id).None?;
    }
  }

  /** An id leads to the entry that its name leads to, and every id below the next one is taken. */
  lemma {:induction false} IdAgreesWithName(types: Types, d: TypeDef, id: nat)
    requires ParentDefined(types, d) && AllMethodsOk(types) && MethodsOk(types, d) && id >= 1
    ensures LookupId(types, d, id).Some? <==> id < NextId(types, d)
    ensures LookupId(types, d, id).Some? ==>
              var m := LookupId(types, d, id).value;
              m.id == id && m.name != "new" && LookupName(types, d, m.name) == Some(m)
    decreases d.serial
  {
    hide FindByName, FindById, LastOwnId, Replaced;
    var ms, k := d.methods, Replaced(d.methods);
    LastOwn(types, d);
    NextIdGrows(types, d);
    FindByIdIs(ms, id);
    if d.HasParent() {
      IdAgreesWithName(types, types[d.parent], id);
      forall n | n != "new" && Inherited(types, d, n).Some?
        ensures 1 <= Inherited(types, d, n).value.id < FirstOwnId(types, d)
      {
        NameAgreesWithId(types, types[d.parent], n);
      }
    }
    if FirstOwnId(types, d) <= id < NextId(types, d) {
      assert ms[k + id - FirstOwnId(types, d)].id == id;
    }
    var m := LookupId(types, d, id);
    if m.Some? { FindByNameIs(ms, m.value.name); }
  }

  /** A child sees every inherited name at its parent's id. */
  lemma {:induction false} ChildKeepsIds(types: Types, d: TypeDef, name: string)
    requires ParentDefined(types, d) && MethodsOk(types, d) && name != "new"
    requires Inherited(types, d, name).Some?
    ensures LookupName(types, d, name).Some?
            && LookupName(types, d, name).value.id == Inherited(types, d, name).value.id
  {
    FindByNameIs(d.methods, name);
  }

  /** All methods that a chain of types introduces, the root's first. */
  function Introduced(types: Types, d: TypeDef): seq<Method>
    requires ParentDefined(types, d)
    decreases d.serial
  {
    (if d.HasParent() then Introduced(types, types[d.parent]) else []) + d.methods[Replaced(d.methods)..]
  }

  /** On every chain the ids of the methods that replace nothing are 1, 2, 3, ... up to the next free one, in order. */
  lemma {:induction false} IdsAreConsecutive(types: Types, d: TypeDef)
    requires ParentDefined(types, d) && AllMethodsOk(types) && MethodsOk(types, d)
    ensures |Introduced(types, d)| == NextId(types, d) - 1
    ensures forall i :: 0 <= i < |Introduced(types, d)| ==>
        Introduced(types, d)[i].id == i + 1 && !Introduced(types, d)[i].overriding
    decreases d.serial
  {
    LastOwn(types, d);
    if d.HasParent() { IdsAreConsecutive(types, types[d.parent]); }
  }

  // ---------------------------------------------------------------------------------------------
  // Declaring methods keeps it
  // ---------------------------------------------------------------------------------------------

  lemma {:induction false} ReplacedSnoc(ms: seq<Method>, m: Method)
    ensures Replaced(ms + [m]) == if Replaced(ms) == |ms| && m.overriding then |ms| + 1 else Replaced(ms)
  {
    if ms == [] {
      assert ms + [m] == [m];
    } else {
      assert (ms + [m])[1..] == ms[1..] + [m];
      ReplacedSnoc(ms[1..], m);
    }
  }

  lemma {:induction false} DeclareKeeps(types: Types, d: TypeDef, decl: MethodDecl)
    requires ParentDefined(types, d) && AllMethodsOk(types) && MethodsOk(types, d) && DeclareMethod(types, d, decl).Ok?
    ensures var (d', m) := DeclareMethod(types, d, decl).value;
            && d' == d.(methods := d'.methods, newMethod := d'.newMethod)
            && ParentDefined(types, d') && MethodsOk(types, d')
            && LookupName(types, d', decl.name).Some? && LookupName(types, d', decl.name).value.id == m.id
  {
    hide FindByName, CompatibleChild, LastOwnId, AllMethodsOk;
    var (d', m) := DeclareMethod(types, d, decl).value;
    if decl.name == "new" {
      assert LookupName(types, d', "new") == d'.newMethod;
    } else if d' != d {
      AppendKeeps(types, d, m);
    }
  }

  ghost predicate Appendable(types: Types, d: TypeDef, m: Method)
    requires ParentDefined(types, d)
  {
    m.name != "new"
    && if m.overriding then LookupName(types, d, m.name).Some? && LookupName(types, d, m.name).value.id == m.id
       else LookupName(types, d, m.name).None? && m.id == NextId(types, d)
  }

  lemma {:induction false} AppendKeeps(types: Types, d: TypeDef, m: Method)
    requires ParentDefined(types, d) && AllMethodsOk(types) && MethodsOk(types, d) && AddMethod(d, m).Ok?
             && Appendable(types, d, m)
    ensures var d' := d.(methods := d.methods + [m]);
            && ParentDefined(types, d') && MethodsOk(types, d')
            && LookupName(types, d', m.name).Some? && LookupName(types, d', m.name).value.id == m.id
  {
    var d' := d.(methods := d.methods + [m]);
    FindSnoc(d.methods, m);
    if m.overriding { AppendReplacement(types, d, d', m); } else { AppendOwn(types, d, d', m); }
  }

  lemma AppendOwn(types: Types, d: TypeDef, d': TypeDef, m: Method)
    requires ParentDefined(types, d) && AllMethodsOk(types) && MethodsOk(types, d) && Appendable(types, d, m)
             && !m.overriding
    requires d' == d.(methods := d.methods + [m])
    ensures ParentDefined(types, d') && MethodsOk(types, d')
  {
    hide FindByName, FindById;
    var ms, k := d.methods, Replaced(d.methods);
    LastOwn(types, d);
    ReplacedSnoc(ms, m);
    FindByNameIs(ms, m.name);
    assert forall i :: 0 <= i < |ms| ==> d'.methods[i] == ms[i];
    assert FirstOwnId(types, d') == FirstOwnId(types, d);
    assert forall n :: Inherited(types, d', n) == Inherited(types, d, n);
  }

  lemma AppendReplacement(types: Types, d: TypeDef, d': TypeDef, m: Method)
    requires ParentDefined(types, d) && AllMethodsOk(types) && MethodsOk(types, d) && Appendable(types, d, m)
             && m.overriding
    requires AddMethod(d, m).Ok? && d' == d.(methods := d.methods + [m])
    ensures ParentDefined(types, d') && MethodsOk(types, d')
  {
    hide FindByName, LookupName, Replaced, LastOwnId;
    var ms := d.methods;
    NothingOwnYet(types, d, m);
    InheritedToo(types, d, m.name);
    ReplacedSnoc(ms, m);
    assert forall i :: 0 <= i < |ms| ==> d'.methods[i] == ms[i];
    assert forall n :: Inherited(types, d', n) == Inherited(types, d, n);
  }

  /** A replacement cannot be added behind the type's own methods: its id is not the next one. */
  lemma NothingOwnYet(types: Types, d: TypeDef, m: Method)
    requires ParentDefined(types, d) && AllMethodsOk(types) && MethodsOk(types, d) && Appendable(types, d, m)
             && m.overriding
    requires AddMethod(d, m).Ok?
    ensures Replaced(d.methods) == |d.methods|
  {
    hide FindByName, LookupName, AllMethodsOk;
    LastOwn(types, d);
    NameAgreesWithId(types, d, m.name);
  }

  /** Where all methods replace inherited ones, a name that is found is inherited, with the same id. */
  lemma InheritedToo(types: Types, d: TypeDef, name: string)
    requires ParentDefined(types, d) && MethodsOk(types, d) && Replaced(d.methods) == |d.methods|
    requires name != "new" && LookupName(types, d, name).Some?
    ensures Inherited(types, d, name).Some? && Inherited(types, d, name).value.id == LookupName(types, d, name).value.id
  {
    hide FindByName, Replaced;
    FindByNameIs(d.methods, name);
  }

  lemma {:induction false} FindSnoc(ms: seq<Method>, m: Method)
    ensures FindByName(ms + [m], m.name) == if FindByName(ms, m.name).Some? then FindByName(ms, m.name) else Some(m)
  {
    if ms == [] {
      assert ms + [m] == [m];
    } else {
      assert (ms + [m])[1..] == ms[1..] + [m];
      FindSnoc(ms[1..], m);
    }
  }

  lemma {:induction false} DeclareAllKeeps(types: Types, d: TypeDef, decls: seq<MethodDecl>)
    requires ParentDefined(types, d) && AllMethodsOk(types) && MethodsOk(types, d)
             && DeclareMethods(types, d, decls).Ok?
    ensures var d' := DeclareMethods(types, d, decls).value;
            && d' == d.(methods := d'.methods, newMethod := d'.newMethod)
            && ParentDefined(types, d') && MethodsOk(types, d')
    decreases |decls|
  {
    if decls != [] {
      DeclareKeeps(types, d, decls[0]);
      DeclareAllKeeps(types, DeclareMethod(types, d, decls[0]).value.0, decls[1..]);
    }
  }

  /** Adding types changes nothing for those that are there. */
  lemma {:induction false} GrowthKeepsLookup(types: Types, types': Types, d: TypeDef, name: string)
    requires ParentDefined(types, d) && ParentDefined(types', d)
             && forall n <- types :: n in types' && types'[n] == types[n]
    ensures LookupName(types', d, name) == LookupName(types, d, name)
    ensures NextId(types', d) == NextId(types, d)
    decreases d.serial
  {
    if d.HasParent() { GrowthKeepsLookup(types, types', types[d.parent], name); }
  }

  lemma GrowthKeepsMethods(types: Types, types': Types, d: TypeDef)
    requires ParentDefined(types, d) && ParentDefined(types', d)
             && forall n <- types :: n in types' && types'[n] == types[n]
    requires MethodsOk(types, d)
    ensures MethodsOk(types', d)
  {
    if d.HasParent() {
      forall name ensures Inherited(types', d, name) == Inherited(types, d, name) {
        GrowthKeepsLookup(types, types', types[d.parent], name);
      }
      GrowthKeepsLookup(types, types', types[d.parent], "");
    }
  }
}

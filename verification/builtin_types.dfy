/**
 The table that the constructor and `add_builtin_types` make: all 40 types, laid out as `add_field_to_type` lays
 them out. It is where every run of forms starts, and it satisfies the invariant and all checks.
 */
module BuiltinTypes {
  import opened TypeTable
  import opened Wrappers
  import opened Layout
  import opened MethodTables
  import opened LookupSoundness
  import opened LookupCompleteness
  import opened LookupTermination
  import opened Deftypes
  import opened FormChecks
  import opened EmbeddingLimits

  // ---------------------------------------------------------------------------------------------
  // Names, parents and sizes
  // ---------------------------------------------------------------------------------------------

  const COUNT := 40

  const OBJECT := 3
  const STRUCTURE := 4
  const BASIC := 5
  const SYMBOL := 6
  const TYPE := 7
  const STRING := 8
  const FUNCTION := 9
  const KHEAP := 12
  const ARRAY := 13
  const PAIR := 14
  const CONNECTABLE := 15
  const ADDRESS := 17
  const INT32 := 26
  const UINT8 := 30
  const UINT16 := 31
  const UINT32 := 32

  /** In the order in which the source adds them. */
  function NameOf(i: nat): string {
    match i
    case 0 => "none"
    case 1 => "_type_"
    case 2 => "_varargs_"
    case 3 => "object"
    case 4 => "structure"
    case 5 => "basic"
    case 6 => "symbol"
    case 7 => "type"
    case 8 => "string"
    case 9 => "function"
    case 10 => "vu-function"
    case 11 => "link-block"
    case 12 => "kheap"
    case 13 => "array"
    case 14 => "pair"
    case 15 => "connectable"
    case 16 => "file-stream"
    case 17 => "pointer"
    case 18 => "inline-array"
    case 19 => "number"
    case 20 => "float"
    case 21 => "integer"
    case 22 => "binteger"
    case 23 => "sinteger"
    case 24 => "int8"
    case 25 => "int16"
    case 26 => "int32"
    case 27 => "int64"
    case 28 => "int128"
    case 29 => "uinteger"
    case 30 => "uint8"
    case 31 => "uint16"
    case 32 => "uint32"
    case 33 => "uint64"
    case 34 => "uint128"
    case 35 => "meters"
    case 36 => "degrees"
    case 37 => "seconds"
    case 38 => "int"
    case _ => "uint"
  }

  predicate IsNull(i: nat) { i < 3 }

  predicate IsStructure(i: nat) { 4 <= i <= 16 }

  /** The null types have none, and `object` is its own. */
  function ParentOf(i: nat): (p: nat)
    ensures i < COUNT && i > 3 ==> p < i
  {
    match i
    case 3 => 3 case 4 => 3 case 5 => 4
    case 6 => 5 case 7 => 5 case 8 => 5 case 9 => 5 case 10 => 4 case 11 => 5 case 12 => 4 case 13 => 5
    case 14 => 3 case 15 => 4 case 16 => 5
    case 17 => 3 case 18 => 3 case 19 => 3
    case 20 => 19 case 21 => 19 case 22 => 21 case 23 => 21
    case 24 => 23 case 25 => 23 case 26 => 23 case 27 => 23 case 28 => 23
    case 29 => 21 case 30 => 29 case 31 => 29 case 32 => 29 case 33 => 29 case 34 => 29
    case 35 => 20 case 36 => 20 case 37 => 33
    case 38 => 21 case 39 => 29
    case _ => 0
  }

  /** The size of a value; references are as large as pointers. */
  function CellSize(i: nat): (n: int)
    ensures PowerOfTwo(n)
  {
    match i
    case 19 => 8 case 21 => 8 case 22 => 8 case 23 => 8 case 29 => 8
    case 24 => 1 case 25 => 2 case 27 => 8 case 28 => 16
    case 30 => 1 case 31 => 2 case 33 => 8 case 34 => 16
    case 37 => 8 case 38 => 8 case 39 => 8
    case _ => 4
  }

  predicate IsSigned(i: nat) { 23 <= i <= 28 || i == 38 }

  // ---------------------------------------------------------------------------------------------
  // Layout
  // ---------------------------------------------------------------------------------------------

  /** A field whose type is one of these, and none is inline. */
  datatype CellDecl = CellDecl(name: string, cell: nat, dynamic: bool)

  function Cell(name: string, cell: nat): CellDecl { CellDecl(name, cell, false) }

  function Data(name: string, cell: nat): CellDecl { CellDecl(name, cell, true) }

  /** The fields that each structure gets of its own. */
  function OwnCells(i: nat): seq<CellDecl> {
    match i
    case 5 => [Cell("type", TYPE)]
    case 6 => [Cell("value", OBJECT)]
    case 7 => [Cell("symbol", SYMBOL), Cell("parent", TYPE), Cell("size", UINT16), Cell("psize", UINT16),
               Cell("heap-base", UINT16), Cell("allocated-length", UINT16), Data("method-table", FUNCTION)]
    case 8 => [Cell("allocated-length", INT32), Data("data", UINT8)]
    case 10 => [Cell("length", INT32), Cell("origin", INT32), Cell("qlength", INT32), Data("data", UINT8)]
    case 11 => [Cell("allocated-length", INT32), Cell("version", INT32)]
    case 12 => [Cell("base", ADDRESS), Cell("top", ADDRESS), Cell("current", ADDRESS), Cell("top-base", ADDRESS)]
    case 13 => [Cell("length", INT32), Cell("allocated-length", INT32), Cell("content-type", TYPE), Data("data", UINT8)]
    case 14 => [Cell("car", OBJECT), Cell("cdr", OBJECT)]
    case 15 => [Cell("next0", CONNECTABLE), Cell("prev0", CONNECTABLE), Cell("next1", CONNECTABLE),
                Cell("prev1", CONNECTABLE)]
    case 16 => [Cell("flags", UINT32), Cell("mode", BASIC), Cell("name", STRING), Cell("file", UINT32)]
    case _ => []
  }

  /** The basics that inherit the fields of `basic`. */
  predicate Inherits(i: nat) { 6 <= i <= 9 || i == 11 || i == 13 || i == 16 }

  function CellsOf(i: nat): seq<CellDecl> { (if Inherits(i) then OwnCells(BASIC) else []) + OwnCells(i) }

  function PlaceCell(k: Kind, c: CellDecl): (r: Kind)
    requires k.StructKind?
    ensures r.StructKind?
  {
    var size := CellSize(c.cell);
    var offset := AlignUp(k.size, size);
    var f := Field(c.name, Simple(NameOf(c.cell)), offset, false, c.dynamic, c.dynamic, 0, size, false);
    k.(fields := k.fields + [f],
       dynamic := k.dynamic || c.dynamic,
       size := offset + if c.dynamic then 0 else size)
  }

  function PlaceCells(k: Kind, cells: seq<CellDecl>): (r: Kind)
    requires k.StructKind?
    ensures r.StructKind?
    decreases |cells|
  {
    if cells == [] then k else PlaceCells(PlaceCell(k, cells[0]), cells[1..])
  }

  /** `string` is final, and references to a `pair` are two bytes off. */
  function Empty(i: nat): (k: Kind)
    ensures k.StructKind?
  {
    StructKind([], false, 0, false, false, if i == PAIR then 2 else 0, i == BASIC || Inherits(i), i == STRING)
  }

  function StructureOf(i: nat): (k: Kind)
    ensures k.StructKind?
  {
    PlaceCells(Empty(i), CellsOf(i))
  }

  function KindOf(i: nat): Kind {
    if IsNull(i) then NullKind
    else if IsStructure(i) then StructureOf(i)
    else ValueKind(CellSize(i), IsSigned(i), false)
  }

  // ---------------------------------------------------------------------------------------------
  // Methods
  // ---------------------------------------------------------------------------------------------

  function FunctionOf(args: seq<string>): TypeSpec {
    TypeSpec("function", seq(|args|, j requires 0 <= j < |args| => Simple(args[j])))
  }

  function ObjectMethod(id: nat): Method {
    var (name, spec) :=
      match id
      case 1 => ("delete", FunctionOf(["_type_", "none"]))
      case 2 => ("print", FunctionOf(["_type_", "_type_"]))
      case 3 => ("inspect", FunctionOf(["_type_", "_type_"]))
      case 4 => ("length", FunctionOf(["_type_", "int"]))
      case 5 => ("asize-of", FunctionOf(["_type_", "int"]))
      case 6 => ("copy", FunctionOf(["_type_", "symbol", "_type_"]))
      case 7 => ("relocate", FunctionOf(["_type_", "int", "_type_"]))
      case _ => ("mem-usage", FunctionOf(["_type_", "memory-usage-block", "int", "_type_"]));
    Method(id, name, spec, "object", false, false)
  }

  function MethodsOf(i: nat): seq<Method> {
    if i == OBJECT then seq(8, j requires 0 <= j < 8 => ObjectMethod(j + 1)) else []
  }

  /** A `new` that returns `none` must not be called. */
  function NewOf(i: nat): Option<Method> {
    var args :=
      match i
      case 3 => ["symbol", "type", "int", "_type_"]
      case 4 => ["symbol", "type", "_type_"]
      case 5 => ["symbol", "type", "_type_"]
      case 6 => ["none"]
      case 7 => ["symbol", "type", "int", "_type_"]
      case 8 => ["symbol", "type", "int", "string", "_type_"]
      case 13 => ["symbol", "type", "type", "int", "_type_"]
      case 14 => ["symbol", "type", "object", "object", "_type_"]
      case 16 => ["symbol", "type", "string", "basic", "_type_"]
      case _ => [];
    if args == [] then None else Some(Method(0, "new", FunctionOf(args), NameOf(i), false, false))
  }

  // ---------------------------------------------------------------------------------------------
  // The table
  // ---------------------------------------------------------------------------------------------

  function DefOf(i: nat): TypeDef {
    TypeDef(NameOf(i), if IsNull(i) then "" else NameOf(ParentOf(i)), i, KindOf(i), MethodsOf(i), NewOf(i))
  }

  function Defs(): (defs: seq<TypeDef>)
    ensures |defs| == COUNT && forall i :: 0 <= i < COUNT ==> defs[i] == DefOf(i)
  {
    seq(COUNT, i requires 0 <= i < COUNT => DefOf(i))
  }

  function Entries(defs: seq<TypeDef>): Types {
    if defs == [] then map[] else Entries(defs[..|defs| - 1])[defs[|defs| - 1].name := defs[|defs| - 1]]
  }

  /** One type is declared ahead, since a method of `object` mentions it. */
  function BuiltinTable(): Table { Table(Entries(Defs()), map["memory-usage-block" := "basic"]) }

  ghost predicate Distinct(defs: seq<TypeDef>) { forall i, j :: 0 <= i < j < |defs| ==> defs[i].name != defs[j].name }

  lemma {:induction false} EntriesAre(defs: seq<TypeDef>)
    requires Distinct(defs)
    ensures forall n :: n in Entries(defs) <==> exists i :: 0 <= i < |defs| && defs[i].name == n
    ensures forall i :: 0 <= i < |defs| ==> defs[i].name in Entries(defs) && Entries(defs)[defs[i].name] == defs[i]
    ensures |Entries(defs)| == |defs|
  {
    if defs != [] {
      var init, last := defs[..|defs| - 1], defs[|defs| - 1];
      assert defs == init + [last];
      EntriesAre(init);
      forall i | 0 <= i < |init| ensures init[i].name != last.name {
        assert init[i] == defs[i];
      }
      OneMore(defs, init, last, Entries(init), Entries(defs));
    }
  }

  lemma OneMore(defs: seq<TypeDef>, init: seq<TypeDef>, last: TypeDef, entries: Types, entries': Types)
    requires defs == init + [last] && |entries| == |init| && forall i :: 0 <= i < |init| ==> init[i].name != last.name
    requires entries' == entries[last.name := last]
    requires forall n :: n in entries <==> exists i :: 0 <= i < |init| && init[i].name == n
    requires forall i :: 0 <= i < |init| ==> init[i].name in entries && entries[init[i].name] == init[i]
    ensures forall n :: n in entries' <==> exists i :: 0 <= i < |defs| && defs[i].name == n
    ensures forall i :: 0 <= i < |defs| ==> defs[i].name in entries' && entries'[defs[i].name] == defs[i]
    ensures |entries'| == |defs|
  {
    assert entries'.Keys == entries.Keys + {last.name};
    forall n | n in entries' ensures exists i :: 0 <= i < |defs| && defs[i].name == n {
      if n != last.name {
        var i :| 0 <= i < |init| && init[i].name == n;
        assert defs[i].name == n;
      } else {
        assert defs[|defs| - 1].name == n;
      }
    }
    forall i | 0 <= i < |defs| ensures defs[i].name in entries' && entries'[defs[i].name] == defs[i] {
      if i < |init| { assert defs[i] == init[i]; }
    }
  }

  // ---------------------------------------------------------------------------------------------
  // The names differ
  // ---------------------------------------------------------------------------------------------

  /** Length, first and last character tell all the names apart. */
  function Key(s: string): nat
    requires s != ""
  {
    (|s| * 0x100 + s[0] as nat) * 0x100 + s[|s| - 1] as nat
  }


  /** The place of a key in the table. */
  function PlaceOf(key: nat): nat {
    match key
    case 0x46e65 => 0 case 0x65f5f => 1 case 0x95f5f => 2 case 0x66f74 => 3 case 0x97365 => 4
    case 0x56263 => 5 case 0x6736c => 6 case 0x47465 => 7 case 0x67367 => 8 case 0x8666e => 9
    case 0xb766e => 10 case 0xa6c6b => 11 case 0x56b70 => 12 case 0x56179 => 13 case 0x47072 => 14
    case 0xb6365 => 15 case 0xb666d => 16 case 0x77072 => 17 case 0xc6979 => 18 case 0x66e72 => 19
    case 0x56674 => 20 case 0x76972 => 21 case 0x86272 => 22 case 0x87372 => 23 case 0x46938 => 24
    case 0x56936 => 25 case 0x56932 => 26 case 0x56934 => 27 case 0x66938 => 28 case 0x87572 => 29
    case 0x57538 => 30 case 0x67536 => 31 case 0x67532 => 32 case 0x67534 => 33 case 0x77538 => 34
    case 0x66d73 => 35 case 0x76473 => 36 case 0x77373 => 37 case 0x36974 => 38
    case _ => 39
  }

  lemma NameHasPlace(i: nat)
    requires i < COUNT
    ensures |NameOf(i)| > 2 && PlaceOf(Key(NameOf(i))) == i
  {
    hide NameOf, PlaceOf;
    if i < 20 { EarlyNameHasPlace(i); } else { LateNameHasPlace(i); }
  }

  lemma EarlyNameHasPlace(i: nat)
    requires i < 20
    ensures |NameOf(i)| > 2 && PlaceOf(Key(NameOf(i))) == i
  {
  }

  lemma LateNameHasPlace(i: nat)
    requires 20 <= i < COUNT
    ensures |NameOf(i)| > 2 && PlaceOf(Key(NameOf(i))) == i
  {
  }

  lemma DefsDistinct()
    ensures Distinct(Defs())
  {
    hide NameOf, PlaceOf, Key, KindOf, MethodsOf, NewOf;
    var defs := Defs();
    forall i, j | 0 <= i < j < |defs| ensures defs[i].name != defs[j].name {
      NameHasPlace(i);
      NameHasPlace(j);
    }
  }

  lemma Entry(i: nat)
    requires i < COUNT
    ensures NameOf(i) in BuiltinTable().types && BuiltinTable().types[NameOf(i)] == DefOf(i)
  {
    hide NameOf, KindOf, MethodsOf, NewOf, Entries, Distinct;
    DefsDistinct();
    EntriesAre(Defs());
    assert Defs()[i].name == NameOf(i);
  }

  lemma Place(n: string) returns (i: nat)
    requires n in BuiltinTable().types
    ensures i < COUNT && n == NameOf(i) && BuiltinTable().types[n] == DefOf(i)
  {
    hide NameOf, KindOf, MethodsOf, NewOf, Entries, Distinct;
    DefsDistinct();
    EntriesAre(Defs());
    i :| 0 <= i < COUNT && Defs()[i].name == n;
    Entry(i);
  }

  lemma TableSize()
    ensures |BuiltinTable().types| == COUNT
  {
    hide Entries, Distinct;
    DefsDistinct();
    EntriesAre(Defs());
  }

  // ---------------------------------------------------------------------------------------------
  // The layout
  // ---------------------------------------------------------------------------------------------

  /** The field that stands for the cell, in a structure of this size. */
  predicate FieldStands(f: Field, c: CellDecl, size: int) {
    && f == Field(c.name, Simple(NameOf(c.cell)), f.offset, false, c.dynamic, c.dynamic, 0, CellSize(c.cell), false)
    && f.offset >= 0 && f.offset % CellSize(c.cell) == 0
    && f.offset + (if c.dynamic then 0 else CellSize(c.cell)) <= size
  }

  predicate AllStand(k: Kind, cells: seq<CellDecl>)
    requires k.StructKind?
  {
    k.size >= 0 && |k.fields| == |cells| && forall j :: 0 <= j < |cells| ==> FieldStands(k.fields[j], cells[j], k.size)
  }

  lemma PlaceCellStands(k: Kind, done: seq<CellDecl>, c: CellDecl)
    requires k.StructKind? && AllStand(k, done)
    ensures AllStand(PlaceCell(k, c), done + [c])
  {
    hide NameOf;
    AlignUpIsLeast(k.size, CellSize(c.cell), k.size);
  }

  lemma {:induction false} PlacedStand(k: Kind, done: seq<CellDecl>, cells: seq<CellDecl>)
    requires k.StructKind? && AllStand(k, done)
    ensures AllStand(PlaceCells(k, cells), done + cells)
    decreases |cells|
  {
    hide AllStand, PlaceCell;
    if cells == [] {
      assert done + cells == done;
    } else {
      PlaceCellStands(k, done, cells[0]);
      PlacedStand(PlaceCell(k, cells[0]), done + [cells[0]], cells[1..]);
      assert done + [cells[0]] + cells[1..] == done + cells;
    }
  }

  /** The fields of a structure, each for its cell. */
  lemma StructureStands(i: nat)
    ensures AllStand(StructureOf(i), CellsOf(i))
  {
    hide CellsOf, AllStand, PlaceCells;
    var k := Empty(i);
    assert AllStand(k, []) by { NothingStands(k); }
    PlacedStand(k, [], CellsOf(i));
    assert [] + CellsOf(i) == CellsOf(i);
  }

  lemma NothingStands(k: Kind)
    requires k.StructKind? && k.fields == [] && k.size == 0
    ensures AllStand(k, [])
  {
  }

  predicate CellsDiffer(cells: seq<CellDecl>) { forall j, k :: 0 <= j < k < |cells| ==> cells[j].name != cells[k].name }

  predicate CellsKnown(cells: seq<CellDecl>) { forall j :: 0 <= j < |cells| ==> 3 <= cells[j].cell < COUNT }

  lemma OwnCellsAre(i: nat)
    ensures CellsDiffer(OwnCells(i)) && CellsKnown(OwnCells(i))
    ensures i != BASIC ==> forall j :: 0 <= j < |OwnCells(i)| ==> OwnCells(i)[j].name != "type"
  {
    hide OwnCells, CellsDiffer, CellsKnown;
    if i <= 8 { EarlyCellsAre(i); } else if i <= 13 { MiddleCellsAre(i); } else { LateCellsAre(i); }
  }

  lemma EarlyCellsAre(i: nat)
    requires i <= 8
    ensures CellsDiffer(OwnCells(i)) && CellsKnown(OwnCells(i))
    ensures i != BASIC ==> forall j :: 0 <= j < |OwnCells(i)| ==> OwnCells(i)[j].name != "type"
  {
  }

  lemma MiddleCellsAre(i: nat)
    requires 9 <= i <= 13
    ensures CellsDiffer(OwnCells(i)) && CellsKnown(OwnCells(i))
    ensures i != BASIC ==> forall j :: 0 <= j < |OwnCells(i)| ==> OwnCells(i)[j].name != "type"
  {
  }

  lemma LateCellsAre(i: nat)
    requires 14 <= i
    ensures CellsDiffer(OwnCells(i)) && CellsKnown(OwnCells(i))
    ensures i != BASIC ==> forall j :: 0 <= j < |OwnCells(i)| ==> OwnCells(i)[j].name != "type"
  {
  }

  lemma CellsAre(i: nat)
    requires i < COUNT
    ensures CellsDiffer(CellsOf(i)) && CellsKnown(CellsOf(i))
  {
    OwnCellsAre(i);
    assert OwnCells(BASIC) == [Cell("type", TYPE)];
    hide OwnCells;
  }

  function DeclOf(c: CellDecl): FieldDecl {
    FieldDecl(c.name, Simple(NameOf(c.cell)), false, c.dynamic, -1, -1, false, None)
  }

  function DeclsOf(cells: seq<CellDecl>): seq<FieldDecl> {
    if cells == [] then [] else [DeclOf(cells[0])] + DeclsOf(cells[1..])
  }

  /** References and values alike, a cell takes up its size. */
  lemma CellSizeIs(i: nat)
    requires 3 <= i < COUNT
    ensures !KindOf(i).NullKind? && (KindOf(i).ValueKind? ==> KindOf(i).size == CellSize(i))
    ensures KindOf(i).StructKind? ==> CellSize(i) == POINTER_SIZE
  {
    hide StructureOf;
  }

  /** One field is placed where `add_field_to_type` puts it. */
  lemma PlacedAsAdded(t: Table, k: Kind, c: CellDecl)
    requires k.StructKind? && FindField(k.fields, c.name).None? && 3 <= c.cell < COUNT && k.size >= 0
    requires NameOf(c.cell) in t.types && t.types[NameOf(c.cell)].kind == KindOf(c.cell)
    ensures AddField(t, k, DeclOf(c)).Ok? && AddField(t, k, DeclOf(c)).value.0 == PlaceCell(k, c)
  {
    hide NameOf, KindOf, CellSize;
    CellSizeIs(c.cell);
    AlignSelf(CellSize(c.cell));
    AlignUpIsLeast(k.size, CellSize(c.cell), k.size);
  }

  lemma FieldIsNew(k: Kind, done: seq<CellDecl>, name: string)
    requires k.StructKind? && AllStand(k, done) && forall j :: 0 <= j < |done| ==> done[j].name != name
    ensures FindField(k.fields, name).None?
  {
    hide NameOf;
    forall j | 0 <= j < |k.fields| ensures k.fields[j].name != name {
      assert FieldStands(k.fields[j], done[j], k.size);
    }
  }

  lemma {:induction false} LaidOutAsAdded(t: Table, k: Kind, done: seq<CellDecl>, cells: seq<CellDecl>)
    requires k.StructKind? && AllStand(k, done) && CellsDiffer(done + cells) && CellsKnown(cells)
    requires forall i: nat :: i < COUNT ==> NameOf(i) in t.types && t.types[NameOf(i)].kind == KindOf(i)
    ensures AddFields(t, k, DeclsOf(cells)) == Ok(PlaceCells(k, cells))
    decreases |cells|
  {
    hide AllStand, PlaceCell, NameOf, KindOf, AddField;
    if cells != [] {
      var c := cells[0];
      assert k.size >= 0 by { StandingSize(k, done); }
      assert forall j :: 0 <= j < |done| ==> (done + cells)[j] == done[j];
      assert (done + cells)[|done|] == c;
      FieldIsNew(k, done, c.name);
      PlacedAsAdded(t, k, c);
      PlaceCellStands(k, done, c);
      assert done + [c] + cells[1..] == done + cells;
      LaidOutAsAdded(t, PlaceCell(k, c), done + [c], cells[1..]);
      assert DeclsOf(cells)[1..] == DeclsOf(cells[1..]);
    }
  }

  lemma StandingSize(k: Kind, done: seq<CellDecl>)
    requires k.StructKind? && AllStand(k, done)
    ensures k.size >= 0
  {
  }

  /** Every builtin structure is what adding its fields one after the other makes of it. */
  lemma BuiltinsAreLaidOut(i: nat)
    requires i < COUNT && IsStructure(i)
    ensures AddFields(BuiltinTable(), Empty(i), DeclsOf(CellsOf(i))) == Ok(KindOf(i))
  {
    hide CellsOf, AllStand, PlaceCells, NameOf, BuiltinTable, AddFields, DeclsOf, CellsDiffer, CellsKnown, MethodsOf,
         NewOf;
    var k := Empty(i);
    forall n: nat | n < COUNT
      ensures NameOf(n) in BuiltinTable().types && BuiltinTable().types[NameOf(n)].kind == KindOf(n)
    {
      Entry(n);
    }
    NothingStands(k);
    CellsAre(i);
    assert [] + CellsOf(i) == CellsOf(i);
    LaidOutAsAdded(BuiltinTable(), k, [], CellsOf(i));
  }

  // ---------------------------------------------------------------------------------------------
  // The invariant and the checks
  // ---------------------------------------------------------------------------------------------

  lemma FieldIsOk(t: Table, d: TypeDef, f: Field, c: CellDecl)
    requires d.kind.StructKind? && FieldStands(f, c, d.kind.size) && 3 <= c.cell < COUNT
    requires NameOf(c.cell) in t.types && t.types[NameOf(c.cell)].kind == KindOf(c.cell)
    ensures FieldOk(t, d, f) && FieldChecked(t, d, f, ALL_CHECKS)
  {
    hide NameOf, KindOf, CellSize;
    CellSizeIs(c.cell);
    AlignSelf(CellSize(c.cell));
  }

  lemma StructureIsOk(t: Table, i: nat)
    requires t == BuiltinTable() && i < COUNT && IsStructure(i)
    ensures TypeOk(t, DefOf(i)) && FieldsChecked(t, DefOf(i), ALL_CHECKS)
  {
    hide NameOf, BuiltinTable, StructureOf, CellsOf, FieldStands, FieldOk, FieldChecked, MethodsOf, NewOf;
    var d, cells := DefOf(i), CellsOf(i);
    StructureStands(i);
    CellsAre(i);
    forall f <- d.kind.fields ensures FieldOk(t, d, f) && FieldChecked(t, d, f, ALL_CHECKS) {
      var j :| 0 <= j < |d.kind.fields| && d.kind.fields[j] == f;
      Entry(cells[j].cell);
      FieldIsOk(t, d, f, cells[j]);
    }
    NamesStand(d, cells);
  }

  lemma NamesStand(d: TypeDef, cells: seq<CellDecl>)
    requires d.kind.StructKind? && AllStand(d.kind, cells) && CellsDiffer(cells)
    ensures DistinctFields(d)
  {
    hide NameOf, CellSize;
    forall j, k | 0 <= j < k < |cells| ensures d.kind.fields[j].name != d.kind.fields[k].name {
      assert FieldStands(d.kind.fields[j], cells[j], d.kind.size);
      assert FieldStands(d.kind.fields[k], cells[k], d.kind.size);
    }
  }

  lemma TypesAreOk()
    ensures var t := BuiltinTable();
            forall n <- t.types :: TypeOk(t, t.types[n]) && FieldsChecked(t, t.types[n], ALL_CHECKS)
  {
    hide NameOf, BuiltinTable, StructureOf, FieldOk, FieldChecked, MethodsOf, NewOf, DistinctFields;
    var t := BuiltinTable();
    forall n <- t.types ensures TypeOk(t, t.types[n]) && FieldsChecked(t, t.types[n], ALL_CHECKS) {
      var i := Place(n);
      if IsStructure(i) { StructureIsOk(t, i); }
    }
  }

  /** The parent of a type is older, and a structure's children are structures. */
  lemma ParentIs(i: nat)
    requires i < COUNT && DefOf(i).HasParent()
    ensures !IsNull(i) && DefOf(i).parent == NameOf(ParentOf(i)) && ParentOf(i) < i
    ensures IsStructure(ParentOf(i)) ==> IsStructure(i)
  {
    hide KindOf, MethodsOf, NewOf;
    assert NameOf(OBJECT) == "object";
    hide NameOf;
    ParentsDescend(i);
  }

  lemma ParentsDescend(i: nat)
    requires 3 < i < COUNT
    ensures ParentOf(i) < i && (IsStructure(ParentOf(i)) ==> IsStructure(i))
  {
  }

  lemma TableIsNumbered()
    ensures Numbered(BuiltinTable()) && KindsInherited(BuiltinTable().types)
  {
    hide NameOf, BuiltinTable, StructureOf, MethodsOf, NewOf, ParentOf;
    var t := BuiltinTable();
    TableSize();
    forall n <- t.types
      ensures t.types[n].name == n && t.types[n].serial < |t.types|
      ensures t.types[n].HasParent() ==>
                t.types[n].parent in t.types && t.types[t.types[n].parent].serial < t.types[n].serial
      ensures t.types[n].HasParent() && t.types[t.types[n].parent].kind.StructKind? ==> t.types[n].kind.StructKind?
    {
      var i := Place(n);
      if DefOf(i).HasParent() {
        ParentIs(i);
        Entry(ParentOf(i));
      }
    }
  }

  lemma MethodsAreOk()
    ensures AllMethodsOk(BuiltinTable().types)
  {
    hide NameOf, BuiltinTable, KindOf, ParentOf, MethodsOk, KindsInherited;
    TableIsNumbered();
    var t := BuiltinTable();
    forall n <- t.types ensures MethodsOk(t.types, t.types[n]) {
      var i := Place(n);
      if i == OBJECT { ObjectMethodsOk(t.types); } else { NoMethodsAreOk(t.types, t.types[n], i); }
    }
  }

  lemma NoMethodsAreOk(types: Types, d: TypeDef, i: nat)
    requires ParentDefined(types, d) && d == DefOf(i) && i != OBJECT
    ensures MethodsOk(types, d)
  {
    hide NameOf, KindOf, ParentOf;
  }

  lemma ObjectMethodsOk(types: Types)
    requires ParentDefined(types, DefOf(OBJECT))
    ensures MethodsOk(types, DefOf(OBJECT))
  {
    hide KindOf, FunctionOf;
    var d := DefOf(OBJECT);
    assert !d.methods[0].overriding && Replaced(d.methods) == 0;
    ObjectMethodsDiffer();
  }

  lemma ObjectMethodsDiffer()
    ensures forall i, j :: 1 <= i < j <= 8 ==> ObjectMethod(i).name != ObjectMethod(j).name
    ensures forall i :: 1 <= i <= 8 ==> ObjectMethod(i).name != "new"
  {
    hide FunctionOf;
  }

  function DeclarationOf(m: Method): MethodDecl { MethodDecl(m.name, false, false, m.spec, None) }

  /** What the source declares for a type: its `new` first, then for `object` the others. */
  function DeclarationsOf(i: nat): seq<MethodDecl> {
    (if NewOf(i).Some? then [DeclarationOf(NewOf(i).value)] else []) + ObjectDeclarations(if i == OBJECT then 0 else 8)
  }

  function ObjectDeclarations(done: nat): (r: seq<MethodDecl>)
    requires done <= 8
    ensures |r| == 8 - done
    decreases 8 - done
  {
    if done == 8 then [] else [DeclarationOf(ObjectMethod(done + 1))] + ObjectDeclarations(done + 1)
  }

  function ObjectSoFar(done: nat): TypeDef
    requires done <= 8
  {
    DefOf(OBJECT).(methods := seq(done, j requires 0 <= j < done => ObjectMethod(j + 1)))
  }

  lemma NextOfObject(types: Types, done: nat)
    requires done < 8 && ParentDefined(types, ObjectSoFar(done))
    ensures var m := ObjectMethod(done + 1);
            DeclareMethod(types, ObjectSoFar(done), DeclarationOf(m)) == Ok((ObjectSoFar(done + 1), m))
  {
    hide KindOf, FunctionOf, ParentOf, NewOf;
    var d, m := ObjectSoFar(done), ObjectMethod(done + 1);
    assert !d.HasParent() by { assert NameOf(OBJECT) == "object"; }
    hide NameOf;
    ObjectMethodsDiffer();
    FindByNameIs(d.methods, m.name);
    assert ObjectSoFar(done + 1).methods == d.methods + [m];
  }

  lemma {:induction false} RestOfObject(types: Types, done: nat)
    requires done <= 8 && ParentDefined(types, ObjectSoFar(done))
    ensures DeclareMethods(types, ObjectSoFar(done), ObjectDeclarations(done)) == Ok(ObjectSoFar(8))
    decreases 8 - done
  {
    hide KindOf, FunctionOf, ParentOf, NewOf, NameOf, ObjectMethod, DeclareMethod;
    if done < 8 {
      NextOfObject(types, done);
      RestOfObject(types, done + 1);
      assert ObjectDeclarations(done)[1..] == ObjectDeclarations(done + 1);
    }
  }

  /** Every builtin type has the methods that declaring them one after the other gives it. */
  lemma BuiltinsAreDeclared(i: nat)
    requires i < COUNT
    ensures var types, bare := BuiltinTable().types, DefOf(i).(methods := [], newMethod := None);
            ParentDefined(types, bare) && DeclareMethods(types, bare, DeclarationsOf(i)) == Ok(DefOf(i))
  {
    hide NameOf, BuiltinTable, KindOf, ParentOf, FunctionOf, KindsInherited, NewOf, ObjectMethod;
    TableIsNumbered();
    Entry(i);
    var types, bare := BuiltinTable().types, DefOf(i).(methods := [], newMethod := None);
    var rest := ObjectDeclarations(if i == OBJECT then 0 else 8);
    var named := bare.(newMethod := NewOf(i));
    if NewOf(i).Some? { NewIsDeclared(types, bare, i); }
    if i == OBJECT {
      assert named == ObjectSoFar(0) && ObjectSoFar(8) == DefOf(i);
      RestOfObject(types, 0);
    } else {
      assert named == DefOf(i);
    }
    if NewOf(i).Some? { assert DeclarationsOf(i)[1..] == rest; } else { assert DeclarationsOf(i) == rest; }
  }

  lemma NewIsDeclared(types: Types, d: TypeDef, i: nat)
    requires ParentDefined(types, d) && d.newMethod.None? && d.name == NameOf(i) && NewOf(i).Some?
    ensures DeclareMethod(types, d, DeclarationOf(NewOf(i).value)) == Ok((d.(newMethod := NewOf(i)), NewOf(i).value))
  {
    hide NameOf, FunctionOf;
  }

  /** The types that other modules refer to by name. */
  lemma NamedTypes()
    ensures var t := BuiltinTable().types;
            && "object" in t && "structure" in t && t["structure"] == DefOf(4) && "basic" in t && t["basic"] == DefOf(5)
            && "pointer" in t && t["pointer"] == DefOf(17) && "inline-array" in t && t["inline-array"] == DefOf(18)
            && "float" in t && "integer" in t && "int32" in t && t["int32"] == DefOf(26)
            && "int64" in t && t["int64"] == DefOf(27)
            && "meters" in t && t["meters"] == DefOf(35) && "degrees" in t && t["degrees"] == DefOf(36)
            && "seconds" in t && t["seconds"] == DefOf(37) && "array" in t && t["array"] == DefOf(13)
  {
    hide BuiltinTable, KindOf, MethodsOf, NewOf, ParentOf;
    Entry(3); Entry(4); Entry(5); Entry(13); Entry(17); Entry(18); Entry(20); Entry(21); Entry(26); Entry(27);
    Entry(35); Entry(36); Entry(37);
  }

  lemma FourMore(k: Kind, c: CellDecl)
    requires k.StructKind? && k.size % 4 == 0 && CellSize(c.cell) == 4 && !c.dynamic
    ensures PlaceCell(k, c).size == k.size + 4 && PlaceCell(k, c).size % 4 == 0
  {
    hide NameOf;
  }

  lemma ArrayIsAsBuilt()
    ensures ArrayAsBuilt(StructureOf(ARRAY))
  {
    hide NameOf, PlaceCell, ArrayAsBuilt;
    var cells := CellsOf(ARRAY);
    assert cells == [Cell("type", TYPE), Cell("length", INT32), Cell("allocated-length", INT32),
                     Cell("content-type", TYPE), Data("data", UINT8)];
    hide CellsOf;
    var k1 := PlaceCell(Empty(ARRAY), cells[0]);
    var k2 := PlaceCell(k1, cells[1]);
    var k3 := PlaceCell(k2, cells[2]);
    var k4 := PlaceCell(k3, cells[3]);
    FourMore(Empty(ARRAY), cells[0]);
    FourMore(k1, cells[1]);
    FourMore(k2, cells[2]);
    FourMore(k3, cells[3]);
    assert cells[1..][1..][1..][1..][1..] == [];
    assert PlaceCells(k4, cells[1..][1..][1..][1..]) == PlaceCell(k4, cells[4]);
    assert PlaceCells(k3, cells[1..][1..][1..]) == PlaceCell(k4, cells[4]);
    assert PlaceCells(k2, cells[1..][1..]) == PlaceCell(k4, cells[4]);
    DataComesLast(k1, k2, k3, k4, cells);
  }

  lemma DataComesLast(k1: Kind, k2: Kind, k3: Kind, k4: Kind, cells: seq<CellDecl>)
    requires cells == [Cell("type", TYPE), Cell("length", INT32), Cell("allocated-length", INT32),
                       Cell("content-type", TYPE), Data("data", UINT8)]
    requires k1 == PlaceCell(Empty(ARRAY), cells[0]) && k2 == PlaceCell(k1, cells[1])
    requires k3 == PlaceCell(k2, cells[2]) && k4 == PlaceCell(k3, cells[3]) && k4.size == 16
    ensures ArrayAsBuilt(PlaceCell(k4, cells[4]))
  {
    hide NameOf;
  }

  lemma BuiltinsArePresent(t: Table)
    requires t == BuiltinTable()
    ensures BuiltinsPresent(t)
  {
    hide BuiltinTable, NameOf, MethodsOf, NewOf, ParentOf, StructureOf, ArrayAsBuilt;
    NamedTypes();
    ArrayIsAsBuilt();
  }

  /** No name is very short or very long. */
  lemma NameLengths(i: nat)
    requires i < COUNT
    ensures 3 <= |NameOf(i)| <= 12
  {
  }

  lemma OtherNames(n: string)
    requires |n| < 3 || |n| > 12
    ensures n !in BuiltinTable().types
  {
    hide NameOf, BuiltinTable;
    if n in BuiltinTable().types {
      var i := Place(n);
      NameLengths(i);
    }
  }

  lemma OneIsAhead()
    ensures BuiltinTable().forward == map["memory-usage-block" := "basic"]
  {
    hide Entries;
  }

  lemma BasicIsStructure()
    ensures "basic" in BuiltinTable().types && BuiltinTable().types["basic"].kind.StructKind?
  {
    hide BuiltinTable, MethodsOf, NewOf, ParentOf, StructureOf;
    NamedTypes();
  }

  lemma AheadIsOk(t: Table)
    requires t == BuiltinTable()
    ensures ForwardOk(t)
  {
    hide BuiltinTable;
    OtherNames("memory-usage-block");
    BasicIsStructure();
    OneIsAhead();
  }

  /** The invariant has a table to start from, and so have all the checks. */
  lemma BuiltinTableOk()
    ensures TableOk(BuiltinTable()) && CheckedTable(BuiltinTable(), ALL_CHECKS)
  {
    hide BuiltinTable, BuiltinsPresent, ForwardOk, FieldsChecked, TypeOk, AllMethodsOk;
    TableIsNumbered();
    MethodsAreOk();
    TypesAreOk();
    BuiltinsArePresent(BuiltinTable());
    AheadIsOk(BuiltinTable());
  }

  lemma BuiltinBase(t: Table)
    requires t == BuiltinTable()
    ensures Base(t)
  {
    hide BuiltinTable, DefOf, KindsInherited;
    TableIsNumbered();
    NamedTypes();
    NamedKinds();
    NotAhead("structure");
  }

  lemma NamedKinds()
    ensures DefOf(4).kind == EMPTY_STRUCTURE && DefOf(4).parent == "object"
    ensures DefOf(26).kind == ValueKind(4, true, false) && DefOf(27).kind == ValueKind(8, true, false)
  {
    hide MethodsOf, NewOf, PlaceCell;
    assert CellsOf(STRUCTURE) == [];
  }

  lemma NotAhead(n: string)
    requires |n| < 18
    ensures n !in BuiltinTable().forward
  {
    hide BuiltinTable;
    OneIsAhead();
  }

  /** So the runs of `EmbeddingLimits` can start from it. */
  lemma BuiltinTableStarts()
    ensures Start(BuiltinTable())
  {
    hide BuiltinTable, TableOk, Base;
    BuiltinTableOk();
    BuiltinBase(BuiltinTable());
    OtherNames("a");
    OtherNames("b");
    OtherNames("c");
    NotAhead("a");
    NotAhead("b");
    NotAhead("c");
  }
}

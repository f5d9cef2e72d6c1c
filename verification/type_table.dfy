/**
 Types, fields and the table that maps names to them: `Type.h`, `TypeSpec.h` and the
 read-only half of `TypeSystem.cpp`.

 Every lookup that can throw or fail an assertion in the source returns an `Option` or a
 `Result` here, with `None`/`Thrown` for the exceptional exit.
 */
module TypeTable {
  import opened Arithmetic
  import opened Wrappers

  /** A reference to a type, possibly compound. Tags are not modelled. */
  datatype TypeSpec = TypeSpec(base: string, args: seq<TypeSpec>) {
    predicate HasSingleArg() { |args| == 1 }
  }

  function Simple(name: string): TypeSpec { TypeSpec(name, []) }

  function PointerTo(spec: TypeSpec): TypeSpec { TypeSpec("pointer", [spec]) }

  function InlineArrayOf(spec: TypeSpec): TypeSpec { TypeSpec("inline-array", [spec]) }

  predicate IsBoxed(spec: TypeSpec) { spec.base == "array" && spec.HasSingleArg() }

  datatype Method = Method(id: int, name: string, spec: TypeSpec, definedIn: string, noVirtual: bool, overriding: bool)

  /** `isArray` is set by a fixed size and by `dynamic`; `arraySize` is meaningful only for fixed sizes. */
  datatype Field = Field(name: string, spec: TypeSpec, offset: int, isInline: bool, dynamic: bool,
                         isArray: bool, arraySize: int, alignment: int, skip: bool)

  /** The concrete classes of `Type`: bitfields and enums are values. */
  datatype Kind =
    | NullKind
    | ValueKind(size: int, signed: bool, bitfield: bool)
    | StructKind(fields: seq<Field>, dynamic: bool, size: int, packed: bool, misaligned: bool,
                 boxOffset: int, basic: bool, final: bool)

  /** `serial` records the order in which types entered the table; the source keeps no such number. */
  datatype TypeDef = TypeDef(name: string, parent: string, serial: nat, kind: Kind,
                             methods: seq<Method>, newMethod: Option<Method>) {
    predicate HasParent() { name != "object" && parent != "" }

    predicate IsReference() { kind.StructKind? }

    function SizeInMemory(): int
      requires !kind.NullKind?
    {
      kind.size
    }

    function LoadSize(): int
      requires !kind.NullKind?
    {
      if kind.ValueKind? then kind.size else POINTER_SIZE
    }

    predicate LoadSigned()
      requires !kind.NullKind?
    {
      kind.ValueKind? && kind.signed
    }

    /** Distance from the start of the object's memory to the value of a reference to it. */
    function BoxOffset(): int
      requires !kind.NullKind?
    {
      if kind.ValueKind? then 0 else if kind.basic then BASIC_OFFSET else kind.boxOffset
    }

    function InMemoryAlignment(): int
      requires !kind.NullKind?
    {
      if kind.ValueKind? then kind.size else STRUCTURE_ALIGNMENT
    }

    function StrideAlignment(): int
      requires !kind.NullKind?
    {
      if kind.ValueKind? then kind.size
      else if kind.packed then MaxAlignment(kind.fields, 1)
      else STRUCTURE_ALIGNMENT
    }

    function StartAlignment(): int
      requires !kind.NullKind?
    {
      if kind.ValueKind? then kind.size
      else if kind.basic then if kind.packed then MaxAlignment(kind.fields, 8) else STRUCTURE_ALIGNMENT
      else if kind.packed || kind.misaligned then MaxAlignment(kind.fields, 1)
      else STRUCTURE_ALIGNMENT
    }
  }

  const POINTER_SIZE := 4
  const BASIC_OFFSET := 4
  const STRUCTURE_ALIGNMENT := 16
  const ARRAY_DATA_OFFSET := 12

  /** The largest field alignment, but at least `least`. */
  function MaxAlignment(fields: seq<Field>, least: int): int {
    if fields == [] then least else Max(fields[|fields| - 1].alignment, MaxAlignment(fields[..|fields| - 1], least))
  }

  lemma {:induction false} MaxAlignmentBounds(fields: seq<Field>, least: int)
    ensures MaxAlignment(fields, least) >= least
    ensures forall f <- fields :: f.alignment <= MaxAlignment(fields, least)
  {
    if fields != [] {
      MaxAlignmentBounds(fields[..|fields| - 1], least);
      assert fields == fields[..|fields| - 1] + [fields[|fields| - 1]];
    }
  }

  type Types = map<string, TypeDef>

  /** `forward` maps a declared but undefined name to the ancestor it was declared with. */
  datatype Table = Table(types: Types, forward: map<string, string>)

  /** Parents are in the table and older than their children, so every walk to the root ends. */
  ghost predicate Grounded(types: Types) {
    forall n <- types ::
      types[n].name == n
          && (types[n].HasParent() ==> types[n].parent in types && types[types[n].parent].serial < types[n].serial)
  }

  /** Full or partial definition: a forward declared name stands for the ancestor it was declared with. */
  function Resolve(t: Table, name: string): Option<TypeDef> {
    if name in t.types then Some(t.types[name])
    else if name in t.forward && t.forward[name] in t.types then Some(t.types[t.forward[name]])
    else None
  }

  /** `anc` is `name` or one of its ancestors. */
  predicate IsSub(types: Types, anc: string, name: string)
    requires Grounded(types) && name in types
    decreases types[name].serial
  {
    name == anc || (types[name].HasParent() && IsSub(types, anc, types[name].parent))
  }

  /** Unit types are checked as the number types they measure. */
  function Unit(expected: string): string {
    if expected == "meters" || expected == "degrees" then "float"
    else if expected == "seconds" then "uint"
    else expected
  }

  /** Base type check; `None` when either name is unknown. */
  function CheckBase(t: Table, expected: string, actual: string): (r: Option<bool>)
    requires Grounded(t.types)
    ensures r.Some? <==> Resolve(t, Unit(expected)).Some? && Resolve(t, actual).Some?
  {
    var e := Unit(expected);
    if Resolve(t, e).None? || Resolve(t, actual).None? then None
    else Some(e == actual || IsSub(t.types, e, Resolve(t, actual).value.name))
  }

  function FindField(fields: seq<Field>, name: string): (r: Option<Field>)
    ensures r.Some? ==> r.value in fields && r.value.name == name
    ensures r.None? ==> forall f <- fields :: f.name != name
  {
    if fields == [] then None
    else if fields[0].name == name then Some(fields[0])
    else FindField(fields[1..], name)
  }

  /** What a dereference of a pointer or inline array does. */
  datatype DerefInfo = DerefInfo(canDeref: bool, memDeref: bool, signExtend: bool, stride: int, loadSize: int,
                                 result: TypeSpec)

  const NoDeref := DerefInfo(false, true, false, -1, -1, Simple(""))

  function AlignUp(x: int, a: int): int
    requires a > 0
  {
    if x % a == 0 then x else x + a - x % a
  }

  lemma AlignUpIsLeast(x: int, a: int, y: int)
    requires a > 0
    ensures x <= AlignUp(x, a) < x + a && AlignUp(x, a) % a == 0
    ensures x <= y && y % a == 0 ==> AlignUp(x, a) <= y
  {
    var q, m := x / a, x % a;
    assert x == a * q + m;
    if m != 0 {
      assert AlignUp(x, a) == a * (q + 1);
      MultipleMod(q + 1, a);
      if x <= y && y % a == 0 {
        var k := y / a;
        assert y == a * k;
        if k < q + 1 {
          MulMono(a, k, q);
          assert false;
        }
        MulMono(a, q + 1, k);
      }
    }
  }

  /** The source counts upward one at a time. */
  method Align(current: int, alignment: int) returns (r: int)
    requires alignment > 0
    ensures r == AlignUp(current, alignment)
  {
    r := current;
    while r % alignment != 0
      invariant current <= r <= AlignUp(current, alignment)
      decreases AlignUp(current, alignment) - r
    {
      AlignUpIsLeast(current, alignment, r);
      r := r + 1;
    }
    AlignUpIsLeast(current, alignment, r);
  }

  function GetDerefInfo(t: Table, spec: TypeSpec): Option<DerefInfo>
    requires Grounded(t.types)
  {
    if !spec.HasSingleArg() then Some(NoDeref)
    else if CheckBase(t, "float", spec.base).None? then None
    else if spec.base == "inline-array" then
      var elt := spec.args[0];
      if elt.base !in t.types then None
      else
        var d := t.types[elt.base];
        if !d.kind.StructKind? || d.kind.dynamic then Some(NoDeref)
        else if d.StrideAlignment() <= 0 then None
        else Some(DerefInfo(true, false, false, AlignUp(d.SizeInMemory(), d.StrideAlignment()), -1, elt))
    else if spec.base == "pointer" then
      var elt := spec.args[0];
      match Resolve(t, elt.base)
      case None => None
      case Some(d) =>
        if d.kind.NullKind? then None
        else if d.IsReference() then Some(DerefInfo(true, true, false, POINTER_SIZE, POINTER_SIZE, elt))
        else Some(DerefInfo(true, true, d.LoadSigned(), d.SizeInMemory(), d.LoadSize(), elt))
    else Some(NoDeref)
  }

  /** A field with the type it has for its users and whether reading it loads from memory. */
  datatype FieldInfo = FieldInfo(field: Field, spec: TypeSpec, needsDeref: bool)

  function GetFieldInfo(t: Table, typeName: string, fieldName: string): (r: Option<FieldInfo>)
    ensures r.Some? ==> typeName in t.types && t.types[typeName].kind.StructKind?
                        && FindField(t.types[typeName].kind.fields, fieldName) == Some(r.value.field)
  {
    if typeName !in t.types || !t.types[typeName].kind.StructKind? then None
    else
      match FindField(t.types[typeName].kind.fields, fieldName)
      case None => None
      case Some(f) =>
        match Resolve(t, f.spec.base)
        case None => None
        case Some(d) =>
          if d.kind.NullKind? then None
          else if d.IsReference() && f.isInline then
            Some(FieldInfo(f, if f.isArray then InlineArrayOf(f.spec) else f.spec, false))
          else if f.isArray then Some(FieldInfo(f, PointerTo(f.spec), false))
          else Some(FieldInfo(f, f.spec, true))
  }

  /** The alignment a field asks for. */
  function AlignmentInType(t: Table, f: Field): Option<int> {
    match Resolve(t, f.spec.base)
    case None => None
    case Some(d) =>
      if d.kind.NullKind? then None
      else if f.isInline then Some(d.StartAlignment())
      else if !d.IsReference() then Some(d.InMemoryAlignment())
      else Some(POINTER_SIZE)
  }

  predicate AllowInline(name: string) { name != "basic" && name != "structure" }

  /** The field ends within this many bytes. */
  predicate EndsWithin(t: Table, f: Field, size: int) {
    SizeInType(t, f).Some? && f.offset + SizeInType(t, f).value <= size
  }

  /** The bytes a field takes up; dynamic fields take none. */
  function SizeInType(t: Table, f: Field): Option<int> {
    if f.dynamic then Some(0)
    else
      match Resolve(t, f.spec.base)
      case None => None
      case Some(d) =>
        if d.kind.NullKind? then None
        else if f.isInline then
          if f.spec.base !in t.types || !AllowInline(d.name) || !d.IsReference() then None
          else if !f.isArray then Some(d.SizeInMemory())
          else if d.StrideAlignment() <= 0 then None
          else Some(f.arraySize * AlignUp(d.SizeInMemory(), d.StrideAlignment()))
        else
          var count := if f.isArray then f.arraySize else 1;
          if d.IsReference() then Some(count * POINTER_SIZE)
          else if d.InMemoryAlignment() <= 0 then None
          else Some(count * AlignUp(d.SizeInMemory(), d.InMemoryAlignment()))
  }
}

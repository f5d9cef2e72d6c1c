/** When the reverse lookup returns at all, and when it returns normally. */
module LookupTermination {
  import opened TypeTable
  import opened FieldPaths
  import opened ReverseLookup
  import opened LookupSoundness
  import opened LookupCompleteness
  import opened LookupExactness

  /**
   Embedded structures were defined before their owners. `add_field_to_type` makes sure of it for
   all fields but the dynamic ones, whose size it does not ask for.
   */
  ghost predicate InlineDefined(t: Table) {
    forall n <- t.types :: t.types[n].kind.StructKind? ==>
        forall f <- t.types[n].kind.fields :: EmbedsOlder(t, t.types[n], f)
  }

  predicate EmbedsOlder(t: Table, owner: TypeDef, f: Field) {
    f.isInline ==>
        f.spec.base in t.types && (t.types[f.spec.base].kind.StructKind? ==> t.types[f.spec.base].serial < owner.serial)
  }

  /** How deep the search on a type can go. */
  function Depth(t: Table, spec: TypeSpec): nat {
    if spec.base == "inline-array" && spec.HasSingleArg() then
      if spec.args[0].base in t.types then 2 * t.types[spec.args[0].base].serial + 3 else 1
    else if spec.base in t.types && t.types[spec.base].kind.StructKind? then 2 * t.types[spec.base].serial + 2
    else 1
  }

  ghost predicate Returns(o: Outcome) { !o.OutOfFuel? }

  lemma {:induction false} SearchReturns(t: Table, input: Input, path: seq<Token>, acc: seq<Hit>, max: int, fuel: nat)
    requires FieldsFit(t) && InlineDefined(t) && fuel >= Depth(t, input.base)
    ensures Returns(Search(t, input, path, acc, max, fuel))
    decreases fuel, 2, 0
  {
    var boxed := input.base.base == "array" && input.base.HasSingleArg();
    if input.base.base == "inline-array" {
      InlineReturns(t, input, path, acc, max, fuel);
    } else if input.base.base == "pointer" || (boxed && (|acc| >= max || input.offset >= ARRAY_DATA_OFFSET)) {
    } else {
      assert Search(t, input, path, acc, max, fuel) == SearchOther(t, input, path, acc, max, fuel);
      if input.base.base in t.types && t.types[input.base.base].kind.StructKind? {
        FieldsReturn(t, input, path, acc, max, fuel, 0);
      }
    }
  }

  lemma {:induction false} InlineReturns(t: Table, input: Input, path: seq<Token>, acc: seq<Hit>, max: int, fuel: nat)
    requires FieldsFit(t) && InlineDefined(t) && input.base.base == "inline-array" && fuel >= Depth(t, input.base)
             && fuel > 0
    ensures Returns(SearchInlineArray(t, input, path, acc, max, fuel))
    decreases fuel, 1, 0
  {
    var di := GetDerefInfo(t, input.base);
    if di.Some? && di.value.canDeref {
      var k: nat := fuel - 1;
      forall next: Input, path', acc' | next.base == di.value.result
        ensures Returns(Search(t, next, path', acc', max, k))
      {
        SearchReturns(t, next, path', acc', max, k);
      }
    }
  }

  lemma {:induction false} FieldsReturn(t: Table, input: Input, path: seq<Token>, acc: seq<Hit>, max: int, fuel: nat,
                                        i: nat)
    requires FieldsFit(t) && InlineDefined(t) && fuel > 0
    requires input.base.base in t.types && t.types[input.base.base].kind.StructKind?
             && i <= |t.types[input.base.base].kind.fields|
    requires fuel >= 2 * t.types[input.base.base].serial + 2
    ensures Returns(SearchFields(t, input, path, acc, max, fuel, i))
    decreases fuel, 0, |t.types[input.base.base].kind.fields| - i
  {
    var owner := t.types[input.base.base];
    var fields := owner.kind.fields;
    if i < |fields| {
      var f := fields[i];
      FindDistinct(fields, i);
      var info := GetFieldInfo(t, owner.name, f.name);
      if info.Some? && !info.value.needsDeref {
        assert EmbedsOlder(t, owner, f);
        var k: nat := fuel - 1;
        forall next: Input | next.base == info.value.spec
          ensures Returns(Search(t, next, path + [FieldTok(f.name)], acc, max, k))
        {
          SearchReturns(t, next, path + [FieldTok(f.name)], acc, max, k);
        }
      }
      assert Returns(SearchField(t, input, path, acc, max, fuel, f));
      if fields[i].skip {
        FieldsReturn(t, input, path, acc, max, fuel, i + 1);
      } else if SearchField(t, input, path, acc, max, fuel, f).Done? {
        FieldsReturn(t, input, path, SearchField(t, input, path, acc, max, fuel, f).hits, max, fuel, i + 1);
      }
    }
  }

  /** Types the search can look into without an exception or a failed assertion. */
  ghost predicate Askable(t: Table, spec: TypeSpec) {
    if spec.base == "pointer" then spec.HasSingleArg() ==> Known(t, spec.args[0])
    else if spec.base == "inline-array" then
      && spec.HasSingleArg() && spec.args[0].base in t.types && spec.args[0].base != "array"
      && var d := t.types[spec.args[0].base]; d.kind.StructKind? && !d.kind.dynamic && d.kind.size > 0
    else spec.base in t.types && (spec.base == "array" && spec.HasSingleArg() ==> Known(t, spec.args[0]))
  }

  predicate Known(t: Table, spec: TypeSpec)
  {
    Resolve(t, spec.base).Some? && !Resolve(t, spec.base).value.kind.NullKind?
  }

  /** The field is an embedded structure, or an array of them. */
  predicate Embeds(t: Table, f: Field) {
    f.isInline && f.spec.base in t.types && t.types[f.spec.base].kind.StructKind?
  }

  /** Structures whose visible fields embed each other only: a search that starts among them stays there. */
  ghost predicate Closed(t: Table, s: set<string>) {
    forall n <- s :: n in t.types && t.types[n].kind.StructKind?
      && forall f <- t.types[n].kind.fields :: !f.skip && Embeds(t, f) ==> f.spec.base in s
  }

  /** What a search on `spec` looks into. */
  function Inner(spec: TypeSpec): TypeSpec {
    if spec.base == "inline-array" && spec.HasSingleArg() then spec.args[0] else spec
  }

  ghost predicate StartsIn(t: Table, s: set<string>, spec: TypeSpec) {
    Inner(spec).base in t.types && t.types[Inner(spec).base].kind.StructKind? ==> Inner(spec).base in s
  }

  function Structures(t: Table): set<string> { set n | n in t.types && t.types[n].kind.StructKind? }

  /** The types that the search refers to by name. */
  predicate NamesKnown(t: Table) {
    && "float" in t.types && "integer" in t.types && "basic" in t.types && "pointer" in t.types
    && "inline-array" in t.types
  }

  /** The same for all that a search among the structures comes to: in particular, no inline array of a dynamic type. */
  ghost predicate AnswerableIn(t: Table, s: set<string>) {
    NamesKnown(t)
    && forall n <- s :: n in t.types && t.types[n].kind.StructKind?
         && forall f <- t.types[n].kind.fields :: !f.skip ==> AnswerableField(t, f)
  }

  ghost predicate Answerable(t: Table) { AnswerableIn(t, Structures(t)) }

  ghost predicate AnswerableField(t: Table, f: Field) {
    && Known(t, f.spec)
    && (f.isInline ==> f.spec.base in t.types)
    && (Embeds(t, f) ==>
          Askable(t, if f.isArray then InlineArrayOf(f.spec) else f.spec))
  }

  ghost predicate Normal(o: Outcome) { !o.Failed? }

  lemma {:induction false} SearchNormal(t: Table, s: set<string>, input: Input, path: seq<Token>, acc: seq<Hit>,
                                        max: int, fuel: nat)
    requires FieldsFit(t) && Closed(t, s) && AnswerableIn(t, s) && Askable(t, input.base) && StartsIn(t, s, input.base)
    ensures Normal(Search(t, input, path, acc, max, fuel))
    decreases fuel, 2, 0
  {
    var boxed := input.base.base == "array" && input.base.HasSingleArg();
    if fuel == 0 {
    } else if input.base.base == "inline-array" {
      InlineNormal(t, s, input, path, acc, max, fuel);
    } else if input.base.base == "pointer" || (boxed && (|acc| >= max || input.offset >= ARRAY_DATA_OFFSET)) {
      if input.base.HasSingleArg() {
        var elt := input.base.args[0];
        assert input.base.base == "pointer" ==> input.base == PointerTo(elt);
        CellKnown(t, elt);
      }
    } else {
      assert Search(t, input, path, acc, max, fuel) == SearchOther(t, input, path, acc, max, fuel);
      if t.types[input.base.base].kind.StructKind? {
        FieldsNormal(t, s, input, path, acc, max, fuel, 0);
      }
    }
  }

  lemma CellKnown(t: Table, spec: TypeSpec)
    requires FieldsFit(t) && NamesKnown(t) && Known(t, spec)
    ensures GetCellInfo(t, spec).Some? && GetCellInfo(t, spec).value.di.memDeref
            && GetCellInfo(t, spec).value.di.stride > 0
  {
    var d := Resolve(t, spec.base).value;
    assert spec.base in t.types ==> d == t.types[spec.base];
  }

  lemma {:induction false} InlineNormal(t: Table, s: set<string>, input: Input, path: seq<Token>, acc: seq<Hit>,
                                        max: int, fuel: nat)
    requires FieldsFit(t) && Closed(t, s) && AnswerableIn(t, s) && Askable(t, input.base) && StartsIn(t, s, input.base)
    requires input.base.base == "inline-array" && fuel > 0
    ensures Normal(SearchInlineArray(t, input, path, acc, max, fuel))
    decreases fuel, 1, 0
  {
    InlineKnown(t, input.base);
    var di := GetDerefInfo(t, input.base);
    var k: nat := fuel - 1;
    forall next: Input, path', acc' | next.base == di.value.result
      ensures Normal(Search(t, next, path', acc', max, k))
    {
      SearchNormal(t, s, next, path', acc', max, k);
    }
  }

  lemma InlineKnown(t: Table, spec: TypeSpec)
    requires FieldsFit(t) && NamesKnown(t) && Askable(t, spec) && spec.base == "inline-array"
    ensures var di := GetDerefInfo(t, spec);
            di.Some? && di.value.canDeref && !di.value.memDeref && di.value.stride > 0
                && di.value.result == spec.args[0] && Askable(t, spec.args[0])
  {
    var d := t.types[spec.args[0].base];
    MaxAlignmentBounds(d.kind.fields, 1);
    AlignUpIsLeast(d.kind.size, d.StrideAlignment(), 0);
  }

  lemma {:induction false} FieldNormal(t: Table, s: set<string>, input: Input, path: seq<Token>, acc: seq<Hit>,
                                       max: int, fuel: nat,
                                       i: nat)
    requires FieldsFit(t) && Closed(t, s) && AnswerableIn(t, s) && input.base.base in s && fuel > 0
    requires input.base.base in t.types && t.types[input.base.base].kind.StructKind?
             && i < |t.types[input.base.base].kind.fields|
    requires !t.types[input.base.base].kind.fields[i].skip
    ensures Normal(SearchField(t, input, path, acc, max, fuel, t.types[input.base.base].kind.fields[i]))
    decreases fuel, 0, 0
  {
    var owner := t.types[input.base.base];
    var f := owner.kind.fields[i];
    FindDistinct(owner.kind.fields, i);
    assert AnswerableField(t, f) && FieldFits(t, owner, f);
    var info := GetFieldInfo(t, owner.name, f.name);
    assert info.Some?;
    if info.value.needsDeref {
      CellKnown(t, info.value.spec);
    } else {
      var k: nat := fuel - 1;
      forall next: Input | next.base == info.value.spec
        ensures Normal(Search(t, next, path + [FieldTok(f.name)], acc, max, k))
      {
        SearchNormal(t, s, next, path + [FieldTok(f.name)], acc, max, k);
      }
    }
  }

  lemma {:induction false} FieldsNormal(t: Table, s: set<string>, input: Input, path: seq<Token>, acc: seq<Hit>,
                                        max: int, fuel: nat,
                                        i: nat)
    requires FieldsFit(t) && Closed(t, s) && AnswerableIn(t, s) && input.base.base in s && fuel > 0
    requires input.base.base in t.types && t.types[input.base.base].kind.StructKind?
             && i <= |t.types[input.base.base].kind.fields|
    ensures Normal(SearchFields(t, input, path, acc, max, fuel, i))
    decreases fuel, 0, |t.types[input.base.base].kind.fields| - i
  {
    var fields := t.types[input.base.base].kind.fields;
    if i < |fields| {
      if fields[i].skip {
        FieldsNormal(t, s, input, path, acc, max, fuel, i + 1);
      } else {
        FieldNormal(t, s, input, path, acc, max, fuel, i);
        var o := SearchField(t, input, path, acc, max, fuel, fields[i]);
        if o.Done? { FieldsNormal(t, s, input, path, o.hits, max, fuel, i + 1); }
      }
    }
  }

  /**
   When every embedded type was defined before its owner and every field can be looked into, the
   lookup returns, for every input and any limit, and a depth that depends on the table only is
   enough.
   */
  lemma LookupReturns(t: Table, input: Input, max: int, fuel: nat)
    requires FieldsFit(t) && InlineDefined(t) && Answerable(t) && Askable(t, input.base) && fuel >= Depth(t, input.base)
    ensures Search(t, input, [], [], max, fuel).Done?
  {
    SearchReturns(t, input, [], [], max, fuel);
    SearchNormal(t, Structures(t), input, [], [], max, fuel);
  }

  /**
   Soundness and completeness together, with nothing assumed about the run: with a limit that is not
   reached, a load path is a hit exactly if it leads to the offset asked for and is in order.
   */
  lemma LookupIsExact(t: Table, input: Input, max: int, fuel: nat, path: seq<Token>, cell: TypeSpec, rel: int)
    requires FieldsFit(t) && InlineDefined(t) && Answerable(t) && Askable(t, input.base) && fuel >= Depth(t, input.base)
    requires input.deref.Some? && input.stride == 0 && Accepts(t, cell, input.deref.value)
    requires LoadPath(t, From(input.base), path, cell, rel)
    ensures Search(t, input, [], [], max, fuel).Done?
    ensures |Search(t, input, [], [], max, fuel).hits| < max ==>
              (Hit(false, cell, path) in Search(t, input, [], [], max, fuel).hits
               <==> rel == input.offset && InOrder(t, From(input.base), path, rel))
  {
    hide FieldFits, DistinctFields, Search, InOrder;
    LookupReturns(t, input, max, fuel);
    var hits := Search(t, input, [], [], max, fuel).hits;
    if |hits| < max && rel == input.offset {
      LookupFindsExactly(t, input, max, fuel, path, cell);
    }
    if Hit(false, cell, path) in hits {
      AcceptedSize(t, cell, input.deref.value);
      LookupIsSound(t, input, max, fuel);
    }
  }
}

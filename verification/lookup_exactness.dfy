/** Which loads the reverse lookup finds: exactly those whose path never points before the memory it steps into. */
module LookupExactness {
  import opened Arithmetic
  import opened TypeTable
  import opened Wrappers
  import opened FieldPaths
  import opened ReverseLookup
  import opened LookupSoundness
  import opened LookupCompleteness

  // ---------------------------------------------------------------------------------------------
  // The hits of a search start with the path to where it searches
  // ---------------------------------------------------------------------------------------------

  ghost predicate Under(acc: seq<Hit>, o: Outcome, path: seq<Token>) {
    o.Done? ==> forall i :: |acc| <= i < |o.hits| ==> path <= o.hits[i].tokens
  }

  /** The search for a load found nothing with these tokens. */
  ghost predicate Without(acc: seq<Hit>, o: Outcome, tokens: seq<Token>) {
    o.Done? ==> forall i :: |acc| <= i < |o.hits| ==> o.hits[i].tokens != tokens
  }

  predicate IsLoad(input: Input) { input.deref.Some? && input.stride == 0 }

  lemma Shorter(acc: seq<Hit>, o: Outcome, path: seq<Token>, tok: Token)
    requires Under(acc, o, path + [tok])
    ensures Under(acc, o, path)
  {
    assert path <= path + [tok];
  }

  lemma ArrayUnder(t: Table, input: Input, path: seq<Token>, acc: seq<Hit>, boxed: bool)
    requires Grounded(t.types) && input.base.HasSingleArg() && ArrayHits(t, input, path, boxed).Done?
    ensures Under(acc, Done(acc + ArrayHits(t, input, path, boxed).hits), path)
  {
    hide GetCellInfo;
  }

  lemma {:induction false} SearchUnder(t: Table, input: Input, path: seq<Token>, acc: seq<Hit>, max: int, fuel: nat)
    requires Grounded(t.types) && IsLoad(input)
    ensures Under(acc, Search(t, input, path, acc, max, fuel), path)
    decreases fuel, 2, 0
  {
    hide SearchFields, GetDerefInfo, SearchInlineArray, ArrayHits;
    if fuel > 0 {
      if input.base.base == "inline-array" {
        InlineUnder(t, input, path, acc, max, fuel);
        Shorter(acc, SearchInlineArray(t, input, path, acc, max, fuel), path, ConstIdx(ElementIndex(t, input)));
        assert Search(t, input, path, acc, max, fuel) == SearchInlineArray(t, input, path, acc, max, fuel);
        return;
      }
      var boxed := input.base.base == "array";
      if input.base.HasSingleArg() && ArrayHits(t, input, path, boxed).Done? { ArrayUnder(t, input, path, acc, boxed); }
      if input.base.base in t.types && t.types[input.base.base].kind.StructKind? {
        FieldsUnder(t, input, path, acc, max, fuel, 0);
      }
      assert Under(acc, SearchOther(t, input, path, acc, max, fuel), path);
      assert input.base.base == "pointer" ==> Under(acc, Search(t, input, path, acc, max, fuel), path);
      assert input.base.base == "array" ==> Under(acc, Search(t, input, path, acc, max, fuel), path);
    }
  }

  lemma {:induction false} InlineUnder(t: Table, input: Input, path: seq<Token>, acc: seq<Hit>, max: int, fuel: nat)
    requires Grounded(t.types) && IsLoad(input) && fuel > 0 && input.base.base == "inline-array"
    ensures Under(acc, SearchInlineArray(t, input, path, acc, max, fuel), path + [ConstIdx(ElementIndex(t, input))])
    decreases fuel, 1, 0
  {
    hide Search, GetDerefInfo, ElementIndex, SearchInlineArray;
    if SearchInlineArray(t, input, path, acc, max, fuel).Done? && |acc| < max {
      InlineDerefs(t, input, path, acc, max, fuel);
      var path' := path + [ConstIdx(ElementIndex(t, input))];
      InlineLoad(t, input, path, acc, max, fuel);
      SearchUnder(t, Input(input.deref, ElementRest(t, input), 0, GetDerefInfo(t, input.base).value.result), path',
                  acc, max, fuel - 1);
    } else if |acc| >= max {
      InlineFull(t, input, path, acc, max, fuel);
    }
  }

  lemma InlineFull(t: Table, input: Input, path: seq<Token>, acc: seq<Hit>, max: int, fuel: nat)
    requires Grounded(t.types) && fuel > 0 && |acc| >= max
    ensures SearchInlineArray(t, input, path, acc, max, fuel) == Done(acc)
  {
  }

  lemma InlineDerefs(t: Table, input: Input, path: seq<Token>, acc: seq<Hit>, max: int, fuel: nat)
    requires Grounded(t.types) && fuel > 0 && |acc| < max && SearchInlineArray(t, input, path, acc, max, fuel).Done?
    requires input.base.base == "inline-array"
    ensures var di := GetDerefInfo(t, input.base);
            di.Some? && di.value.canDeref && !di.value.memDeref && input.base == InlineArrayOf(di.value.result)
  {
    hide Search;
  }

  lemma {:induction false} FieldsUnder(t: Table, input: Input, path: seq<Token>, acc: seq<Hit>, max: int, fuel: nat,
                                       i: nat)
    requires Grounded(t.types) && IsLoad(input) && fuel > 0
    requires input.base.base in t.types && t.types[input.base.base].kind.StructKind?
             && i <= |t.types[input.base.base].kind.fields|
    ensures Under(acc, SearchFields(t, input, path, acc, max, fuel, i), path)
    decreases fuel, 1, |t.types[input.base.base].kind.fields| - i
  {
    hide SearchField;
    var fields := t.types[input.base.base].kind.fields;
    if i < |fields| {
      if fields[i].skip {
        FieldsUnder(t, input, path, acc, max, fuel, i + 1);
      } else if |acc| < max {
        FieldUnder(t, input, path, acc, max, fuel, fields[i]);
        Shorter(acc, SearchField(t, input, path, acc, max, fuel, fields[i]), path, FieldTok(fields[i].name));
        var o := SearchField(t, input, path, acc, max, fuel, fields[i]);
        if o.Done? { FieldsUnder(t, input, path, o.hits, max, fuel, i + 1); }
      }
    }
  }

  lemma {:induction false} FieldUnder(t: Table, input: Input, path: seq<Token>, acc: seq<Hit>, max: int, fuel: nat,
                                      f: Field)
    requires Grounded(t.types) && IsLoad(input) && fuel > 0
    requires input.base.base in t.types && t.types[input.base.base].kind.StructKind?
    ensures Under(acc, SearchField(t, input, path, acc, max, fuel, f), path + [FieldTok(f.name)])
    decreases fuel, 0, 0
  {
    hide Search, GetFieldInfo, SizeInType, GetCellInfo;
    var owner := t.types[input.base.base];
    var info := GetFieldInfo(t, owner.name, f.name);
    if info.Some? && !info.value.needsDeref {
      var into := input.offset + owner.BoxOffset() - f.offset;
      var expected := if f.isInline && f.spec.base in t.types
          && !t.types[f.spec.base].kind.NullKind? then t.types[f.spec.base].BoxOffset() else 0;
      SearchUnder(t, Input(input.deref, into - expected, input.stride, info.value.spec), path + [FieldTok(f.name)],
                  acc, max, fuel - 1);
    }
  }

  // ---------------------------------------------------------------------------------------------
  // A path out of order is missed
  // ---------------------------------------------------------------------------------------------

  lemma TurnedAside(acc: seq<Hit>, o: Outcome, path: seq<Token>, tok: Token, rest: seq<Token>)
    requires Under(acc, o, path + [tok]) && rest != [] && rest[0] != tok
    ensures Without(acc, o, path + rest)
  {
    if o.Done? {
      forall i | |acc| <= i < |o.hits| ensures o.hits[i].tokens != path + rest {
        assert o.hits[i].tokens[|path|] == (path + [tok])[|path|];
        assert (path + rest)[|path|] == rest[0];
      }
    }
  }

  lemma {:induction false} SearchMisses(t: Table, input: Input, path: seq<Token>, acc: seq<Hit>, max: int, fuel: nat,
                                        p: Place, rest: seq<Token>, cell: TypeSpec)
    requires FieldsFit(t) && Leads(t, input, p, rest, cell) && !InOrder(t, p, rest, input.offset)
    ensures Without(acc, Search(t, input, path, acc, max, fuel), path + rest)
    decreases fuel, 3, 0
  {
    hide LoadPath, SearchInlineArray, SearchFields, DistinctFields, FieldFits, Step, ArrayHits, InOrder;
    if fuel > 0 {
      if input.base.base == "pointer" {
        PointerInOrder(t, input, p, rest, cell);
      } else if input.base.base == "inline-array" {
        InlineMisses(t, input, path, acc, max, fuel, p, rest, cell);
      } else {
        var j := FieldStarts(t, input, p, rest, cell);
        FieldsMiss(t, input, path, acc, max, fuel, 0, j, p, rest, cell);
        assert Search(t, input, path, acc, max, fuel) in {Done(acc), SearchOther(t, input, path, acc, max, fuel)};
      }
    }
  }

  lemma PointerInOrder(t: Table, input: Input, p: Place, rest: seq<Token>, cell: TypeSpec)
    requires FieldsFit(t) && Leads(t, input, p, rest, cell) && input.base.base == "pointer"
    ensures InOrder(t, p, rest, input.offset)
  {
    var i := PointerPath(t, input, p, rest, cell);
    hide Step;
    assert rest[1..] == [];
  }

  lemma {:induction false} InlineMisses(t: Table, input: Input, path: seq<Token>, acc: seq<Hit>, max: int, fuel: nat,
                                        p: Place, rest: seq<Token>, cell: TypeSpec)
    requires FieldsFit(t) && Leads(t, input, p, rest, cell) && !InOrder(t, p, rest, input.offset) && fuel > 0
    requires input.base.base == "inline-array"
    ensures Without(acc, SearchInlineArray(t, input, path, acc, max, fuel), path + rest)
    decreases fuel, 2, 0
  {
    hide LoadPath, SearchInlineArray, Search, DistinctFields, FieldFits, Step, GetDerefInfo, ElementIndex, ElementRest,
        StepInOrder;
    if |acc| >= max {
      InlineFull(t, input, path, acc, max, fuel);
    } else {
      var i, rel, q := ElementStep(t, input, p, rest, cell);
      InlineLoad(t, input, path, acc, max, fuel);
      InlineUnder(t, input, path, acc, max, fuel);
      if i == ElementIndex(t, input) {
        RestMisses(t, Input(input.deref, rel, 0, q.spec), path, acc, max, fuel, q, rest, cell);
      } else {
        TurnedAside(acc, SearchInlineArray(t, input, path, acc, max, fuel), path, ConstIdx(ElementIndex(t, input)),
                    rest);
      }
    }
  }

  lemma {:induction false} RestMisses(t: Table, next: Input, path: seq<Token>, acc: seq<Hit>, max: int, fuel: nat,
                                      q: Place, rest: seq<Token>, cell: TypeSpec)
    requires FieldsFit(t) && rest != [] && Leads(t, next, q, rest[1..], cell) && fuel > 0
    ensures !InOrder(t, q, rest[1..], next.offset) ==>
        Without(acc, Search(t, next, path + [rest[0]], acc, max, fuel - 1), path + rest)
    decreases fuel, 0, 0
  {
    hide Leads, Search, InOrder, FieldFits, DistinctFields;
    if !InOrder(t, q, rest[1..], next.offset) {
      assert path + [rest[0]] + rest[1..] == path + rest;
      SearchMisses(t, next, path + [rest[0]], acc, max, fuel - 1, q, rest[1..], cell);
    }
  }

  lemma {:induction false} FieldsMiss(t: Table, input: Input, path: seq<Token>, acc: seq<Hit>, max: int, fuel: nat,
                                      i: nat, j: nat, p: Place, rest: seq<Token>, cell: TypeSpec)
    requires FieldsFit(t) && Leads(t, input, p, rest, cell) && !InOrder(t, p, rest, input.offset) && fuel > 0
    requires input.base.base in t.types && t.types[input.base.base].kind.StructKind?
    requires i <= |t.types[input.base.base].kind.fields| && j < |t.types[input.base.base].kind.fields|
    requires rest != [] && rest[0] == FieldTok(t.types[input.base.base].kind.fields[j].name)
    ensures Without(acc, SearchFields(t, input, path, acc, max, fuel, i), path + rest)
    decreases fuel, 2, |t.types[input.base.base].kind.fields| - i
  {
    hide LoadPath, SearchField, DistinctFields, FieldFits, Step, InOrder, Accepts;
    var fields := t.types[input.base.base].kind.fields;
    if i < |fields| {
      if fields[i].skip {
        FieldsMiss(t, input, path, acc, max, fuel, i + 1, j, p, rest, cell);
      } else if |acc| < max {
        var o := SearchField(t, input, path, acc, max, fuel, fields[i]);
        OneFieldMisses(t, input, path, acc, max, fuel, i, j, p, rest, cell);
        if o.Done? { FieldsMiss(t, input, path, o.hits, max, fuel, i + 1, j, p, rest, cell); }
      }
    }
  }

  lemma {:induction false} OneFieldMisses(t: Table, input: Input, path: seq<Token>, acc: seq<Hit>, max: int, fuel: nat,
                                          i: nat, j: nat, p: Place, rest: seq<Token>, cell: TypeSpec)
    requires FieldsFit(t) && Leads(t, input, p, rest, cell) && !InOrder(t, p, rest, input.offset) && fuel > 0
    requires input.base.base in t.types && t.types[input.base.base].kind.StructKind?
    requires i < |t.types[input.base.base].kind.fields| && j < |t.types[input.base.base].kind.fields|
    requires rest != [] && rest[0] == FieldTok(t.types[input.base.base].kind.fields[j].name)
    ensures Without(acc, SearchField(t, input, path, acc, max, fuel, t.types[input.base.base].kind.fields[i]),
                    path + rest)
    decreases fuel, 1, 0
  {
    hide LoadPath, SearchField, Search, FieldFits, Step, Accepts, StepInOrder;
    var fields := t.types[input.base.base].kind.fields;
    if i != j {
      FieldUnder(t, input, path, acc, max, fuel, fields[i]);
      assert fields[i].name != fields[j].name;
      TurnedAside(acc, SearchField(t, input, path, acc, max, fuel, fields[i]), path, FieldTok(fields[i].name), rest);
    } else {
      SoughtField(t, input, p, rest, cell, j);
      var q := Step(t, p, rest[0]).value;
      if q.Mem? {
        CellInOrder(t, input, p, rest, cell);
      } else {
        var rel := FieldEntered(t, input, path, acc, max, fuel, fields[j], p, q, rest, cell);
        RestMisses(t, Input(input.deref, rel, 0, q.spec), path, acc, max, fuel, q, rest, cell);
      }
    }
  }

  lemma CellInOrder(t: Table, input: Input, p: Place, rest: seq<Token>, cell: TypeSpec)
    requires Grounded(t.types) && Leads(t, input, p, rest, cell) && rest != [] && PlainStep(t, p, rest[0])
             && Step(t, p, rest[0]).value.Mem?
    ensures InOrder(t, p, rest, input.offset)
  {
    var q := Step(t, p, rest[0]).value;
    LoadEnds(t, q, rest[1..], cell, p.at + input.offset - q.at);
  }

  /**
   The loads that are found, exactly: of the paths of visible fixed fields and constant indices that end at
   the offset asked for, in a cell the access matches, the search reports those whose every step is in order
   and no other, unless the limit on hits was reached.
   */
  lemma LookupFindsExactly(t: Table, input: Input, max: int, fuel: nat, path: seq<Token>, cell: TypeSpec)
    requires FieldsFit(t) && Leads(t, input, From(input.base), path, cell)
    requires Search(t, input, [], [], max, fuel).Done? && |Search(t, input, [], [], max, fuel).hits| < max
    ensures Hit(false, cell, path) in Search(t, input, [], [], max, fuel).hits <==>
        InOrder(t, From(input.base), path, input.offset)
  {
    if InOrder(t, From(input.base), path, input.offset) {
      LookupIsComplete(t, input, max, fuel, path, cell);
    } else {
      SearchMisses(t, input, [], [], max, fuel, From(input.base), path, cell);
      assert [] + path == path;
    }
  }

  // ---------------------------------------------------------------------------------------------
  // What keeps all paths in order, and what does not
  // ---------------------------------------------------------------------------------------------

  /** No field of `name` was placed before the start of the type's memory. */
  predicate NonNegative(t: Table, name: string) {
    name in t.types && t.types[name].kind.StructKind? ==> forall f <- t.types[name].kind.fields :: f.offset >= 0
  }

  ghost predicate AllNonNegative(t: Table) { forall n <- t.types :: NonNegative(t, n) }

  /** The same for every type that some field embeds. */
  ghost predicate EmbeddedNonNegative(t: Table) {
    forall n <- t.types :: t.types[n].kind.StructKind? ==>
      forall f <- t.types[n].kind.fields :: f.isInline ==> NonNegative(t, f.spec.base)
  }

  /** Structures entered through this reference have no early field. */
  ghost predicate EntersNonNegative(t: Table, spec: TypeSpec) {
    spec.base == "inline-array" && spec.HasSingleArg() ==> NonNegative(t, spec.args[0].base)
  }

  /** Without early fields, a path in order does not end before the memory it starts in. */
  lemma CellAfterStart(t: Table, input: Input, p: Place, rest: seq<Token>, cell: TypeSpec)
    requires FieldsFit(t) && Leads(t, input, p, rest, cell) && rest != [] && rest[0].FieldTok?
    requires NonNegative(t, p.spec.base) && Step(t, p, rest[0]).Some? && Step(t, p, rest[0]).value.Mem?
    requires p.spec.base in t.types && t.types[p.spec.base].kind.StructKind?
    ensures 0 <= input.offset + t.types[p.spec.base].BoxOffset()
  {
    hide SizeInType, Accepts;
    assert PlainStep(t, p, rest[0]);
    var q := Step(t, p, rest[0]).value;
    LoadEnds(t, q, rest[1..], cell, p.at + input.offset - q.at);
    assert q.at
        == p.at - t.types[p.spec.base].BoxOffset() + GetFieldInfo(t, p.spec.base, rest[0].name).value.field.offset;
  }

  lemma EndsAfterStart(t: Table, input: Input, p: Place, rest: seq<Token>, cell: TypeSpec)
    requires FieldsFit(t) && Leads(t, input, p, rest, cell) && rest != [] && rest[0].FieldTok?
    requires InOrder(t, p, rest, input.offset) && NonNegative(t, p.spec.base)
    requires p.spec.base in t.types && t.types[p.spec.base].kind.StructKind? && p.spec.base != "inline-array"
    ensures 0 <= input.offset + Lead(t, p.spec)
  {
    hide LoadPath, Step, GetFieldInfo, SizeInType, Accepts, FieldFits, PlainStep;
    var j := FieldStarts(t, input, p, rest, cell);
    SoughtField(t, input, p, rest, cell, j);
    var q := Step(t, p, rest[0]).value;
    if q.Mem? {
      CellAfterStart(t, input, p, rest, cell);
    } else {
      var f := t.types[p.spec.base].kind.fields[j];
      RestLeads(t, input, p, q, rest, cell);
      FieldRoom(t, input, f, p, q, rest[1..], cell, input.offset - (q.at - p.at));
    }
  }

  /** Every path is in order if no embedded structure has an early field. */
  lemma {:induction false} NonNegativeInOrder(t: Table, input: Input, p: Place, rest: seq<Token>, cell: TypeSpec)
    requires FieldsFit(t) && EmbeddedNonNegative(t) && Leads(t, input, p, rest, cell) && EntersNonNegative(t, p.spec)
    ensures InOrder(t, p, rest, input.offset)
    decreases |rest|, 0
  {
    hide LoadPath, Step, FieldFits, DistinctFields, Accepts, GetFieldInfo, Lead, EntersNonNegative;
    if input.base.base == "pointer" {
      PointerInOrder(t, input, p, rest, cell);
    } else if input.base.base == "inline-array" {
      var i, rel, q := ElementStep(t, input, p, rest, cell);
      ElementEnters(t, p.spec, q.spec);
      NonNegativeRest(t, Input(input.deref, rel, 0, q.spec), q, rest[1..], cell);
    } else {
      var j := FieldStarts(t, input, p, rest, cell);
      SoughtField(t, input, p, rest, cell, j);
      var q := Step(t, p, rest[0]).value;
      if q.Mem? {
        CellInOrder(t, input, p, rest, cell);
      } else {
        RestLeads(t, input, p, q, rest, cell);
        FieldEnters(t, p, q, t.types[p.spec.base].kind.fields[j]);
        NonNegativeRest(t, Input(input.deref, input.offset - (q.at - p.at), 0, q.spec), q, rest[1..], cell);
      }
    }
  }

  lemma ElementEnters(t: Table, spec: TypeSpec, elt: TypeSpec)
    requires EntersNonNegative(t, spec) && spec == InlineArrayOf(elt) && elt.base != "inline-array"
    ensures EntersNonNegative(t, elt) && NonNegative(t, elt.base)
  {
  }

  /** What a field of an embedding type leads into has no early field. */
  lemma FieldEnters(t: Table, p: Place, q: Place, f: Field)
    requires FieldsFit(t) && EmbeddedNonNegative(t) && p.Ref? && q.Ref?
    requires PlainStep(t, p, FieldTok(f.name)) && Step(t, p, FieldTok(f.name)) == Some(q)
    requires GetFieldInfo(t, p.spec.base, f.name).Some? && GetFieldInfo(t, p.spec.base, f.name).value.field == f
    ensures EntersNonNegative(t, q.spec)
            && (q.spec.base in t.types && t.types[q.spec.base].kind.StructKind? ==> NonNegative(t, q.spec.base))
  {
    FieldRegion(t, p, f.name, q);
  }

  lemma {:induction false} NonNegativeRest(t: Table, next: Input, q: Place, rest: seq<Token>, cell: TypeSpec)
    requires FieldsFit(t) && EmbeddedNonNegative(t) && Leads(t, next, q, rest, cell) && EntersNonNegative(t, q.spec)
    requires q.spec.base in t.types && t.types[q.spec.base].kind.StructKind? ==> NonNegative(t, q.spec.base)
    ensures InOrder(t, q, rest, next.offset) && 0 <= next.offset + Lead(t, q.spec)
    decreases |rest|, 1
  {
    hide LoadPath, Step, FieldFits, DistinctFields, Accepts, GetFieldInfo, InOrder, Lead, EntersNonNegative;
    NonNegativeInOrder(t, next, q, rest, cell);
    if next.base.base == "pointer" {
      PointerAfterStart(t, next, q, rest, cell);
    } else if next.base.base == "inline-array" {
      var i, rel, q' := ElementStep(t, next, q, rest, cell);
      ElementEnters(t, q.spec, q'.spec);
      NonNegativeRest(t, Input(next.deref, rel, 0, q'.spec), q', rest[1..], cell);
    } else {
      var j := FieldStarts(t, next, q, rest, cell);
      EndsAfterStart(t, next, q, rest, cell);
    }
  }

  lemma PointerAfterStart(t: Table, input: Input, p: Place, rest: seq<Token>, cell: TypeSpec)
    requires FieldsFit(t) && Leads(t, input, p, rest, cell) && input.base.base == "pointer"
    ensures 0 <= input.offset + Lead(t, p.spec)
  {
    var i := PointerPath(t, input, p, rest, cell);
    PointerElementEnd(t, p, i);
    AcceptedSize(t, cell, input.deref.value);
    MulMono(LoadBytes(t, cell), 0, i);
  }

  /** So the lookup is complete, for all loads at once, on a table without early fields in embedded structures. */
  lemma LookupIsCompleteWithoutEarlyFields(t: Table, input: Input, max: int, fuel: nat, path: seq<Token>,
                                           cell: TypeSpec)
    requires FieldsFit(t) && EmbeddedNonNegative(t) && EntersNonNegative(t, input.base)
             && Leads(t, input, From(input.base), path, cell)
    requires Search(t, input, [], [], max, fuel).Done? && |Search(t, input, [], [], max, fuel).hits| < max
    ensures Hit(false, cell, path) in Search(t, input, [], [], max, fuel).hits
  {
    NonNegativeInOrder(t, input, From(input.base), path, cell);
    LookupFindsExactly(t, input, max, fuel, path, cell);
  }

  /** A value field before the start of an embedded structure is always missed, in any table and any owner. */
  lemma EarlyFieldIsMissed(t: Table, input: Input, max: int, fuel: nat, f: Field, x: Field, cell: TypeSpec)
    requires FieldsFit(t) && Leads(t, input, From(input.base), [FieldTok(f.name), FieldTok(x.name)], cell)
    requires GetFieldInfo(t, input.base.base, f.name).Some? && GetFieldInfo(t, input.base.base, f.name).value.field == f
    requires f.isInline && !f.isArray && GetFieldInfo(t, f.spec.base, x.name).Some?
             && GetFieldInfo(t, f.spec.base, x.name).value.field == x
    requires x.offset < 0
    requires Search(t, input, [], [], max, fuel).Done? && |Search(t, input, [], [], max, fuel).hits| < max
    ensures Hit(false, cell, [FieldTok(f.name), FieldTok(x.name)]) !in Search(t, input, [], [], max, fuel).hits
  {
    var path := [FieldTok(f.name), FieldTok(x.name)];
    EarlyIsOutOfOrder(t, input, f, x, cell, path);
    LookupFindsExactly(t, input, max, fuel, path, cell);
  }

  lemma EarlyIsOutOfOrder(t: Table, input: Input, f: Field, x: Field, cell: TypeSpec, path: seq<Token>)
    requires FieldsFit(t) && path == [FieldTok(f.name), FieldTok(x.name)]
             && Leads(t, input, From(input.base), path, cell)
    requires GetFieldInfo(t, input.base.base, f.name).Some? && GetFieldInfo(t, input.base.base, f.name).value.field == f
    requires f.isInline && !f.isArray && GetFieldInfo(t, f.spec.base, x.name).Some?
             && GetFieldInfo(t, f.spec.base, x.name).value.field == x
    requires x.offset < 0
    ensures !InOrder(t, From(input.base), path, input.offset)
  {
    hide SizeInType, Accepts;
    var p := From(input.base);
    assert PlainStep(t, p, path[0]);
    var q := Step(t, p, path[0]).value;
    assert path[1..] == [path[1]] && path[1..][1..] == [];
    assert Replay(t, q, path[1..]) == Step(t, q, path[1]);
  }
}

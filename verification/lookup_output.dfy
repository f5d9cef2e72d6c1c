/**
 The reverse lookup as the source runs it: four methods that append to one output in place.
 Each is proved to do what the function of `ReverseLookup` says. The ghost `fuel` is any depth
 that suffices; `LookupTermination` says when there is one.
 */
module LookupOutput {
  import opened Arithmetic
  import opened TypeTable
  import opened Wrappers
  import opened FieldPaths
  import opened ReverseLookup

  class MultiLookupOutput {
    var results: seq<Hit>
    var success: bool

    constructor ()
      ensures results == [] && !success
    {
      results, success := [], false;
    }

    method Add(addrOf: bool, spec: TypeSpec, tokens: seq<Token>)
      modifies this`results
      ensures results == old(results) + [Hit(addrOf, spec, tokens)]
    {
      results := results + [Hit(addrOf, spec, tokens)];
    }
  }

  /** The answer of the function, with the exceptional exit as `false`. */
  ghost predicate Appends(ok: bool, results: seq<Hit>, o: Outcome) {
    ok == o.Done? && (ok ==> results == o.hits)
  }

  method ReverseFieldMultiLookup(t: Table, input: Input, max: int, ghost fuel: nat)
      returns (ok: bool, out: MultiLookupOutput)
    requires Grounded(t.types) && Search(t, input, [], [], max, fuel) != OutOfFuel
    ensures fresh(out) && Appends(ok, out.results, Search(t, input, [], [], max, fuel))
    ensures ok ==> out.success == (out.results != [])
  {
    out := new MultiLookupOutput();
    ok := TryReverseLookup(t, input, [], out, max, fuel);
    if ok && out.results != [] { out.success := true; }
  }

  method TryReverseLookup(t: Table, input: Input, path: seq<Token>, out: MultiLookupOutput, max: int, ghost fuel: nat)
      returns (ok: bool)
    requires Grounded(t.types) && Search(t, input, path, out.results, max, fuel) != OutOfFuel
    modifies out`results
    ensures Appends(ok, out.results, Search(t, input, path, old(out.results), max, fuel))
    decreases fuel, 3, 0
  {
    if input.base.base == "pointer" {
      ok := TryReverseLookupArrayLike(t, input, path, out, max, fuel, false);
    } else if input.base.base == "inline-array" {
      ok := TryReverseLookupInlineArray(t, input, path, out, max, fuel);
    } else if input.base.base == "array" && input.base.HasSingleArg() {
      ok := TryReverseLookupArrayLike(t, input, path, out, max, fuel, true);
    } else {
      ok := TryReverseLookupOther(t, input, path, out, max, fuel);
    }
  }

  method TryReverseLookupArrayLike(t: Table, input: Input, path: seq<Token>, out: MultiLookupOutput, max: int,
                                   ghost fuel: nat, boxed: bool)
    returns (ok: bool)
    requires Grounded(t.types) && fuel > 0 && SearchArray(t, input, path, out.results, max, fuel, boxed) != OutOfFuel
    modifies out`results
    ensures Appends(ok, out.results, SearchArray(t, input, path, old(out.results), max, fuel, boxed))
    decreases fuel, 2, 0
  {
    hide GetCellInfo, DerefMatches, SearchOther;
    if |out.results| >= max || !input.base.HasSingleArg() { return true; }
    if boxed && input.offset < ARRAY_DATA_OFFSET {
      ok := TryReverseLookupOther(t, input, path, out, max, fuel);
      return;
    }
    var elt := input.base.args[0];
    var cell := GetCellInfo(t, elt);
    if cell.None? || !cell.value.di.memDeref { return false; }
    ok := true;
    var stride := cell.value.di.stride;
    var first := if boxed then ARRAY_DATA_OFFSET else 0;
    if input.stride != 0 {
      if input.stride != stride || input.offset != first { return; }
      if input.deref.None? {
        out.Add(true, PointerTo(elt), path + [VarIdx]);
      } else if cell.value.Matches(input.deref.value) {
        out.Add(false, elt, path + [VarIdx]);
      }
      return;
    }
    if stride <= 0 { return false; }
    var idx := Quotient(input.offset - first, stride);
    if input.offset - first != idx * stride { return; }
    if input.deref.Some? {
      if cell.value.Matches(input.deref.value) { out.Add(false, elt, path + [ConstIdx(idx)]); }
      return;
    }
    out.Add(true, PointerTo(elt), path + [ConstIdx(idx)]);
    if idx == 0 {
      if boxed {
        out.Add(false, PointerTo(elt), path + [FieldTok("data")]);
      } else if path != [] {
        out.Add(false, input.base, path);
      }
    }
  }

  /** The hits on a whole element of an inline array, and on the array itself for the first one. */
  function WholeHits(input: Input, path: seq<Token>, elt: TypeSpec, idx: int): seq<Hit> {
    [Hit(false, elt, path + [ConstIdx(idx)])] + if idx == 0 && path != [] then [Hit(false, input.base, path)] else []
  }

  /** The constant-index half of the function, with the index and what is left of the offset worked out. */
  function AtElement(t: Table, input: Input, path: seq<Token>, acc: seq<Hit>, max: int, fuel: nat, elt: TypeSpec,
                     idx: int, into: int): Outcome
    requires Grounded(t.types) && fuel > 0
  {
    var exact := into == 0 && input.deref.None?;
    if exact && |acc| + 1 >= max then Done(acc + [Hit(false, elt, path + [ConstIdx(idx)])])
    else
      var acc' := acc + if exact then WholeHits(input, path, elt, idx) else [];
      if |acc'| >= max then Done(acc')
      else Search(t, Input(input.deref, into, input.stride, elt), path + [ConstIdx(idx)], acc', max, fuel - 1)
  }

  lemma InlineArrayAtElement(t: Table, input: Input, path: seq<Token>, acc: seq<Hit>, max: int, fuel: nat,
                             di: DerefInfo, idx: int, into: int)
    requires Grounded(t.types) && fuel > 0 && |acc| < max && GetDerefInfo(t, input.base) == Some(di) && di.canDeref
             && !di.memDeref
    requires !(input.stride != 0 && input.stride == di.stride && input.offset < di.stride)
    requires di.stride > 0 && di.result.base in t.types && !t.types[di.result.base].kind.NullKind?
    requires idx == Quotient(t.types[di.result.base].BoxOffset() + input.offset, di.stride)
             && into == input.offset - idx * di.stride
    ensures SearchInlineArray(t, input, path, acc, max, fuel)
        == AtElement(t, input, path, acc, max, fuel, di.result, idx, into)
  {
    var hits := acc + [Hit(false, di.result, path + [ConstIdx(idx)])];
    assert hits + [Hit(false, input.base, path)]
        == acc + ([Hit(false, di.result, path + [ConstIdx(idx)])] + [Hit(false, input.base, path)]);
    assert hits + [] == hits && acc + [] == acc;
    assert [Hit(false, di.result, path + [ConstIdx(idx)])] + [] == [Hit(false, di.result, path + [ConstIdx(idx)])];
  }

  method TryReverseLookupInlineArray(t: Table, input: Input, path: seq<Token>, out: MultiLookupOutput, max: int,
                                     ghost fuel: nat)
    returns (ok: bool)
    requires Grounded(t.types) && fuel > 0 && SearchInlineArray(t, input, path, out.results, max, fuel) != OutOfFuel
    modifies out`results
    ensures Appends(ok, out.results, SearchInlineArray(t, input, path, old(out.results), max, fuel))
    decreases fuel, 2, 0
  {
    if |out.results| >= max { return true; }
    var di := GetDerefInfo(t, input.base);
    if di.None? || !di.value.canDeref || di.value.memDeref { return false; }
    var elt, stride := di.value.result, di.value.stride;
    if input.stride != 0 && input.stride == stride && input.offset < stride {
      ok := TryVariableElement(t, input, path, out, max, fuel, elt);
      return;
    }
    if stride <= 0 || elt.base !in t.types || t.types[elt.base].kind.NullKind? { return false; }
    var idx := Quotient(t.types[elt.base].BoxOffset() + input.offset, stride);
    InlineArrayAtElement(t, input, path, out.results, max, fuel, di.value, idx, input.offset - idx * stride);
    ok := TryConstantElement(t, input, path, out, max, fuel, elt, idx, input.offset - idx * stride);
  }

  function AtAnyElement(t: Table, input: Input, path: seq<Token>, acc: seq<Hit>, max: int, fuel: nat,
                        elt: TypeSpec): Outcome
    requires Grounded(t.types) && fuel > 0
  {
    var acc' := acc + if input.offset == 0 && input.deref.None? then [Hit(false, elt, path + [VarIdx])] else [];
    if |acc'| >= max then Done(acc')
    else Search(t, Input(input.deref, input.offset, 0, elt), path + [VarIdx], acc', max, fuel - 1)
  }

  method TryVariableElement(t: Table, input: Input, path: seq<Token>, out: MultiLookupOutput, max: int,
                            ghost fuel: nat, elt: TypeSpec)
    returns (ok: bool)
    requires Grounded(t.types) && fuel > 0 && AtAnyElement(t, input, path, out.results, max, fuel, elt) != OutOfFuel
    modifies out`results
    ensures Appends(ok, out.results, AtAnyElement(t, input, path, old(out.results), max, fuel, elt))
    decreases fuel, 1, 0
  {
    assert out.results + [] == out.results;
    if input.offset == 0 && input.deref.None? { out.Add(false, elt, path + [VarIdx]); }
    if |out.results| >= max { return true; }
    ok := TryReverseLookup(t, Input(input.deref, input.offset, 0, elt), path + [VarIdx], out, max, fuel - 1);
  }

  method TryConstantElement(t: Table, input: Input, path: seq<Token>, out: MultiLookupOutput, max: int,
                            ghost fuel: nat, elt: TypeSpec, idx: int, into: int)
    returns (ok: bool)
    requires Grounded(t.types) && fuel > 0 && |out.results| < max
    requires AtElement(t, input, path, out.results, max, fuel, elt, idx, into) != OutOfFuel
    modifies out`results
    ensures Appends(ok, out.results, AtElement(t, input, path, old(out.results), max, fuel, elt, idx, into))
    decreases fuel, 1, 0
  {
    ghost var acc := out.results;
    assert acc + [] == acc;
    if into == 0 && input.deref.None? {
      out.Add(false, elt, path + [ConstIdx(idx)]);
      if |out.results| >= max { return true; }
    }
    if into == 0 && input.deref.None? && idx == 0 {
      if path != [] { out.Add(false, input.base, path); }
    }
    assert into == 0 && input.deref.None? ==> out.results == acc + WholeHits(input, path, elt, idx);
    if |out.results| >= max { return true; }
    ok := TryReverseLookup(t, Input(input.deref, into, input.stride, elt), path + [ConstIdx(idx)], out, max, fuel - 1);
  }

  /** The loop over the fields. */
  method TryReverseLookupOther(t: Table, input: Input, path: seq<Token>, out: MultiLookupOutput, max: int,
                               ghost fuel: nat)
    returns (ok: bool)
    requires Grounded(t.types) && fuel > 0 && SearchOther(t, input, path, out.results, max, fuel) != OutOfFuel
    modifies out`results
    ensures Appends(ok, out.results, SearchOther(t, input, path, old(out.results), max, fuel))
    decreases fuel, 1, 0
  {
    if input.base.base !in t.types { return false; }
    var owner := t.types[input.base.base];
    if !owner.kind.StructKind? { return true; }
    var fields := owner.kind.fields;
    ghost var answer := SearchOther(t, input, path, out.results, max, fuel);
    for i := 0 to |fields|
      invariant SearchFields(t, input, path, out.results, max, fuel, i) == answer
    {
      if !fields[i].skip {
        if |out.results| >= max { return true; }
        ok := TryField(t, input, path, out, max, fuel, fields[i]);
        if !ok { return; }
      }
    }
    ok := true;
  }

  /** One round of the loop. */
  method TryField(t: Table, input: Input, path: seq<Token>, out: MultiLookupOutput, max: int, ghost fuel: nat, f: Field)
    returns (ok: bool)
    requires Grounded(t.types) && fuel > 0
    requires input.base.base in t.types && t.types[input.base.base].kind.StructKind?
    requires SearchField(t, input, path, out.results, max, fuel, f) != OutOfFuel
    modifies out`results
    ensures Appends(ok, out.results, SearchField(t, input, path, old(out.results), max, fuel, f))
    decreases fuel, 0, 0
  {
    var owner := t.types[input.base.base];
    var info := GetFieldInfo(t, owner.name, f.name);
    if info.None? { return false; }
    var corrected := input.offset + owner.BoxOffset();
    if corrected < f.offset { return true; }
    var size := SizeInType(t, f);
    if size.None? { return false; }
    if corrected + AccessSize(input) > f.offset + size.value && !f.dynamic { return true; }
    var into := corrected - f.offset;
    if info.value.needsDeref {
      if into != 0 { return true; }
      if input.deref.Some? {
        var cell := GetCellInfo(t, info.value.spec);
        if cell.None? { return false; }
        if cell.value.Matches(input.deref.value) && input.stride == 0 {
          out.Add(false, info.value.spec, path + [FieldTok(f.name)]);
        }
      } else if input.stride == 0 {
        out.Add(true, PointerTo(info.value.spec), path + [FieldTok(f.name)]);
      }
      return true;
    }
    var expected := 0;
    if f.isInline {
      if f.spec.base !in t.types || t.types[f.spec.base].kind.NullKind? { return false; }
      expected := t.types[f.spec.base].BoxOffset();
    }
    if into == expected && input.deref.None? && input.stride == 0 {
      out.Add(false, info.value.spec, path + [FieldTok(f.name)]);
      return true;
    }
    ok := TryReverseLookup(t, Input(input.deref, into - expected, input.stride, info.value.spec),
                           path + [FieldTok(f.name)], out, max, fuel - 1);
  }
}

/**
 Exactly when the reverse lookup returns. A search moves between spots: a structure and an offset into its memory.
 From the second spot on these are finitely many, since the search checks sizes and reduces offsets into arrays; so
 it can go on forever only by coming back to a spot.
 */
module LookupCycles {
  import opened Arithmetic
  import opened TypeTable
  import opened Wrappers
  import opened FieldPaths
  import opened ReverseLookup
  import opened LookupSoundness
  import opened LookupCompleteness
  import opened LookupExactness
  import opened LookupTermination

  datatype Spot = Spot(name: string, at: int)

  /** How far apart the elements of an inline array are, if a search can go into them. */
  function ElementStride(t: Table, elt: TypeSpec): Option<int>
    requires Grounded(t.types)
  {
    match ElementAccess(t, InlineArrayOf(elt))
    case Some(how) => if how.stride > 0 then Some(how.stride) else None
    case None => None
  }

  /** Where an access `into` bytes from the start of the field goes on, if the field embeds structures and it fits. */
  function Landing(t: Table, size: int, f: Field, into: int): Option<Spot>
    requires Grounded(t.types)
  {
    if f.skip || !Embeds(t, f) || into < 0 then None
    else if !f.dynamic && (SizeInType(t, f).None? || SizeInType(t, f).value < into + size) then None
    else if !f.isArray then Some(Spot(f.spec.base, into))
    else
      match ElementStride(t, f.spec)
      case Some(stride) => Some(Spot(f.spec.base, into % stride))
      case None => None
  }

  /** Some field leads an access of `size` bytes from the one spot to the other. */
  ghost predicate Goes(t: Table, size: int, a: Spot, b: Spot)
    requires Grounded(t.types)
  {
    && a.name in t.types && t.types[a.name].kind.StructKind?
    && exists i :: 0 <= i < |t.types[a.name].kind.fields| && GoesBy(t, size, a, i, b)
  }

  predicate GoesBy(t: Table, size: int, a: Spot, i: nat, b: Spot)
    requires Grounded(t.types) && a.name in t.types && t.types[a.name].kind.StructKind?
    requires i < |t.types[a.name].kind.fields|
  {
    Landing(t, size, t.types[a.name].kind.fields[i], a.at - t.types[a.name].kind.fields[i].offset) == Some(b)
  }

  ghost predicate Trail(t: Table, size: int, s: set<string>, ps: seq<Spot>)
    requires Grounded(t.types)
  {
    && ps != [] && (forall k :: 0 <= k < |ps| ==> ps[k].name in s)
    && forall k :: 0 <= k < |ps| - 1 ==> Goes(t, size, ps[k], ps[k + 1])
  }

  ghost predicate Ring(t: Table, size: int, s: set<string>, ps: seq<Spot>)
    requires Grounded(t.types)
  {
    Trail(t, size, s, ps) && |ps| > 1 && ps[0] == ps[|ps| - 1]
  }

  /** An access of `size` bytes can come back to where it was. */
  ghost predicate Loops(t: Table, size: int, s: set<string>)
    requires Grounded(t.types)
  {
    exists ps :: Ring(t, size, s, ps)
  }

  ghost predicate LookupEnds(t: Table, input: Input, max: int)
    requires Grounded(t.types)
  {
    exists fuel: nat :: Returns(Search(t, input, [], [], max, fuel))
  }

  // ---------------------------------------------------------------------------------------------
  // Finitely many spots
  // ---------------------------------------------------------------------------------------------

  /** All spots that steps from among the structures lead to. */
  ghost predicate Covers(t: Table, size: int, s: set<string>, spots: set<Spot>)
    requires Grounded(t.types)
  {
    forall a: Spot, b: Spot :: a.name in s && Goes(t, size, a, b) ==> b in spots
  }

  function FieldRoom(t: Table, f: Field): nat
    requires Grounded(t.types)
  {
    var size := if SizeInType(t, f).Some? then SizeInType(t, f).value else 0;
    var stride := if ElementStride(t, f.spec).Some? then ElementStride(t, f.spec).value else 0;
    Max(Max(size, stride), 0)
  }

  lemma {:induction false} RoomForAll(t: Table, fields: seq<Field>) returns (room: nat)
    requires Grounded(t.types)
    ensures forall f <- fields :: FieldRoom(t, f) <= room
  {
    hide FieldRoom;
    room := 0;
    if fields != [] {
      var rest := RoomForAll(t, fields[1..]);
      room := Max(FieldRoom(t, fields[0]), rest);
      assert forall f <- fields :: f == fields[0] || f in fields[1..];
    }
  }

  lemma {:induction false} RoomAmong(t: Table, s: set<string>) returns (room: nat)
    requires Grounded(t.types) && forall n <- s :: n in t.types && t.types[n].kind.StructKind?
    ensures forall n <- s :: forall f <- t.types[n].kind.fields :: FieldRoom(t, f) <= room
    decreases |s|
  {
    hide FieldRoom;
    room := 0;
    if n :| n in s {
      var rest := RoomAmong(t, s - {n});
      var own := RoomForAll(t, t.types[n].kind.fields);
      room := Max(own, rest);
      assert forall m <- s :: m == n || m in s - {n};
    }
  }

  lemma SpotsCover(t: Table, size: int, s: set<string>) returns (spots: set<Spot>)
    requires FieldsFit(t) && Closed(t, s) && size >= 1
    ensures Covers(t, size, s, spots)
  {
    hide FieldFits, DistinctFields, Landing, FieldRoom;
    var room := RoomAmong(t, s);
    spots := set n, at | n in s && 0 <= at < room :: Spot(n, at);
    forall a: Spot, b: Spot | a.name in s && Goes(t, size, a, b) ensures b in spots {
      var i :| 0 <= i < |t.types[a.name].kind.fields| && GoesBy(t, size, a, i, b);
      var f := t.types[a.name].kind.fields[i];
      assert f in t.types[a.name].kind.fields && FieldFits(t, t.types[a.name], f);
      LandsInRoom(t, size, t.types[a.name], f, a.at - f.offset, b);
    }
  }

  lemma LandsInRoom(t: Table, size: int, owner: TypeDef, f: Field, into: int, b: Spot)
    requires Grounded(t.types) && owner.kind.StructKind? && FieldFits(t, owner, f) && size >= 1
    requires Landing(t, size, f, into) == Some(b)
    ensures !f.skip && Embeds(t, f) && b.name == f.spec.base && 0 <= b.at < FieldRoom(t, f)
  {
    hide ElementAccess, SizeInType;
  }

  lemma {:induction false} Repetition(ps: seq<Spot>, spots: set<Spot>) returns (i: nat, j: nat)
    requires (forall k :: 0 <= k < |ps| ==> ps[k] in spots) && |ps| > |spots|
    ensures i < j < |ps| && ps[i] == ps[j]
  {
    var last := ps[|ps| - 1];
    if k :| 0 <= k < |ps| - 1 && ps[k] == last {
      i, j := k, |ps| - 1;
    } else {
      i, j := Repetition(ps[..|ps| - 1], spots - {last});
    }
  }

  lemma LongTrailLoops(t: Table, size: int, s: set<string>, spots: set<Spot>, ps: seq<Spot>)
    requires Grounded(t.types) && Trail(t, size, s, ps) && |ps| > |spots|
    requires forall k :: 0 <= k < |ps| ==> ps[k] in spots
    ensures Loops(t, size, s)
  {
    hide Goes;
    var i, j := Repetition(ps, spots);
    var ring := ps[i..j + 1];
    assert forall k :: 0 <= k < |ring| ==> ring[k] == ps[i + k];
    assert Ring(t, size, s, ring);
  }

  lemma TrailIsShort(t: Table, size: int, s: set<string>, spots: set<Spot>, ps: seq<Spot>)
    requires Grounded(t.types) && Trail(t, size, s, ps) && !Loops(t, size, s)
    requires forall k :: 0 <= k < |ps| ==> ps[k] in spots
    ensures |ps| <= |spots|
  {
    hide Goes, Trail, Loops;
    if |ps| > |spots| { LongTrailLoops(t, size, s, spots, ps); }
  }

  // ---------------------------------------------------------------------------------------------
  // Without a ring every search returns
  // ---------------------------------------------------------------------------------------------

  /** The trail of a search so far, and a set of spots that holds it and all that follow. */
  datatype Way = Way(s: set<string>, spots: set<Spot>, trail: seq<Spot>)

  ghost predicate WayOk(t: Table, size: int, w: Way)
    requires Grounded(t.types)
  {
    && Trail(t, size, w.s, w.trail) && Covers(t, size, w.s, w.spots)
    && forall k :: 0 <= k < |w.trail| ==> w.trail[k] in w.spots
  }

  /** Nothing to come back to. */
  ghost predicate NoWayBack(t: Table, size: int, s: set<string>)
  {
    FieldsFit(t) && Closed(t, s) && size >= 1 && !Loops(t, size, s)
  }

  /** A depth that suffices at the end of the trail. A stride can be used up once, which starts a new trail. */
  function Enough(w: Way, stride: int): int {
    2 * (|w.spots| - |w.trail|) + 2 + if stride != 0 then 2 * |w.spots| + 4 else 0
  }

  /** The spot that a search starts from: in an inline array, the one in the element that a constant index picks. */
  function Arrival(t: Table, input: Input): Option<Spot>
    requires Grounded(t.types)
  {
    var m := input.offset + Lead(t, input.base);
    if input.base.base == "inline-array" then
      if !input.base.HasSingleArg() then None
      else
        match ElementStride(t, input.base.args[0])
        case Some(stride) => Some(Spot(input.base.args[0].base, m - Quotient(m, stride) * stride))
        case None => None
    else if input.base.base in t.types && t.types[input.base.base].kind.StructKind? then Some(Spot(input.base.base, m))
    else None
  }

  /** The way leads to where the search starts, and the depth suffices for it. */
  ghost predicate OnItsWay(t: Table, size: int, w: Way, input: Input, fuel: nat)
    requires Grounded(t.types)
  {
    fuel > 0
    && (Arrival(t, input).Some? ==>
          && WayOk(t, size, w) && w.trail[|w.trail| - 1] == Arrival(t, input).value
          && fuel >= Enough(w, input.stride) + if input.base.base == "inline-array" then 1 else 0)
  }

  lemma {:induction false} SearchEnds(t: Table, size: int, w: Way, input: Input, path: seq<Token>, acc: seq<Hit>,
                                      max: int, fuel: nat)
    requires NoWayBack(t, size, w.s) && AccessSize(input) == size && OnItsWay(t, size, w, input, fuel)
    ensures Returns(Search(t, input, path, acc, max, fuel))
    decreases fuel, 2, 0
  {
    hide WayOk, Loops, Closed, FieldFits, DistinctFields, SearchInlineArray, SearchFields, ArrayHits, Enough;
    if input.base.base == "inline-array" {
      InlineEnds(t, size, w, input, path, acc, max, fuel);
    } else if input.base.base in t.types && t.types[input.base.base].kind.StructKind? {
      FieldsEnd(t, size, w, input, path, acc, max, fuel, 0);
    }
    if input.base.HasSingleArg() { ArrayReturns(t, input, path, input.base.base == "array"); }
    assert Returns(SearchOther(t, input, path, acc, max, fuel));
    assert input.base.base == "pointer" ==> Returns(Search(t, input, path, acc, max, fuel));
    assert input.base.base == "array" ==> Returns(Search(t, input, path, acc, max, fuel));
  }

  lemma ArrayReturns(t: Table, input: Input, path: seq<Token>, boxed: bool)
    requires Grounded(t.types) && input.base.HasSingleArg()
    ensures Returns(ArrayHits(t, input, path, boxed))
  {
  }

  lemma {:induction false} InlineEnds(t: Table, size: int, w: Way, input: Input, path: seq<Token>, acc: seq<Hit>,
                                      max: int, fuel: nat)
    requires NoWayBack(t, size, w.s) && AccessSize(input) == size && OnItsWay(t, size, w, input, fuel)
    requires input.base.base == "inline-array"
    ensures Returns(SearchInlineArray(t, input, path, acc, max, fuel))
    decreases fuel, 1, 0
  {
    hide Search, Loops, Closed, FieldFits, DistinctFields, OnItsWay;
    var di := GetDerefInfo(t, input.base);
    if di.Some? && di.value.canDeref && !di.value.memDeref {
      var elt, stride := di.value.result, di.value.stride;
      if input.stride != 0 && input.stride == stride && input.offset < stride {
        var next := Input(input.deref, input.offset, 0, elt);
        var w' := VariableGoesOn(t, size, w, input, next, fuel);
        var acc' := acc + if input.offset == 0 && input.deref.None? then [Hit(false, elt, path + [VarIdx])] else [];
        SearchEnds(t, size, w', next, path + [VarIdx], acc', max, fuel - 1);
      } else if stride > 0 {
        var idx := Quotient(t.types[elt.base].BoxOffset() + input.offset, stride);
        var next := Input(input.deref, input.offset - idx * stride, input.stride, elt);
        ConstantGoesOn(t, size, w, input, next, idx, fuel);
        var exact := next.offset == 0 && input.deref.None?;
        var acc' := acc + if exact then [Hit(false, elt, path + [ConstIdx(idx)])] else [];
        var acc'' := acc' + if exact && idx == 0 && path != [] then [Hit(false, input.base, path)] else [];
        SearchEnds(t, size, w, next, path + [ConstIdx(idx)], acc'', max, fuel - 1);
      }
    }
  }

  /** The elements of an inline array that a search goes into are structures. */
  lemma ElementsAre(t: Table, input: Input)
    requires FieldsFit(t) && input.base.base == "inline-array"
    requires GetDerefInfo(t, input.base).Some? && GetDerefInfo(t, input.base).value.canDeref
    ensures var di := GetDerefInfo(t, input.base).value;
            && input.base == InlineArrayOf(di.result) && di.stride >= 0
            && di.result.base in t.types && t.types[di.result.base].kind.StructKind?
            && di.result.base != "inline-array" && Lead(t, di.result) == Lead(t, input.base)
            && Lead(t, di.result) == t.types[di.result.base].BoxOffset()
            && (di.stride > 0 ==> ElementStride(t, di.result) == Some(di.stride))
  {
    hide FieldFits, DistinctFields;
    var d := t.types[GetDerefInfo(t, input.base).value.result.base];
    AlignUpIsLeast(d.kind.size, d.StrideAlignment(), 0);
  }

  lemma WayIsShort(t: Table, size: int, w: Way)
    requires NoWayBack(t, size, w.s) && WayOk(t, size, w)
    ensures 0 < |w.trail| <= |w.spots|
  {
    hide FieldsFit, Closed, Covers;
    FitsIsGrounded(t);
    TrailIsShort(t, size, w.s, w.spots, w.trail);
  }

  lemma FitsIsGrounded(t: Table)
    requires FieldsFit(t)
    ensures Grounded(t.types)
  {
  }

  lemma ConstantGoesOn(t: Table, size: int, w: Way, input: Input, next: Input, idx: int, fuel: nat)
    requires NoWayBack(t, size, w.s) && OnItsWay(t, size, w, input, fuel) && input.base.base == "inline-array"
    requires GetDerefInfo(t, input.base).Some? && GetDerefInfo(t, input.base).value.canDeref
    requires var di := GetDerefInfo(t, input.base).value;
             && di.stride > 0 && di.result.base in t.types && t.types[di.result.base].kind.StructKind?
             && idx == Quotient(t.types[di.result.base].BoxOffset() + input.offset, di.stride)
             && next == Input(input.deref, input.offset - idx * di.stride, input.stride, di.result)
    ensures fuel > 0 && OnItsWay(t, size, w, next, fuel - 1)
  {
    hide FieldsFit, WayOk, GetDerefInfo, Lead, ElementStride, Closed, Loops;
    ElementsAre(t, input);
    WayIsShort(t, size, w);
  }

  lemma VariableGoesOn(t: Table, size: int, w: Way, input: Input, next: Input, fuel: nat) returns (w': Way)
    requires NoWayBack(t, size, w.s) && OnItsWay(t, size, w, input, fuel) && input.base.base == "inline-array"
    requires GetDerefInfo(t, input.base).Some? && GetDerefInfo(t, input.base).value.canDeref
    requires var di := GetDerefInfo(t, input.base).value;
             && input.stride != 0 && input.stride == di.stride && next == Input(input.deref, input.offset, 0, di.result)
    ensures fuel > 0 && w'.s == w.s && OnItsWay(t, size, w', next, fuel - 1)
  {
    hide FieldsFit, GetDerefInfo, Lead, ElementStride, Closed, Loops, Covers, Goes;
    FitsIsGrounded(t);
    ElementsAre(t, input);
    WayIsShort(t, size, w);
    var q := Spot(next.base.base, next.offset + Lead(t, next.base));
    w' := Way(w.s, w.spots + {q}, [q]);
    assert |w'.spots| <= |w.spots| + 1;
    MoreCover(t, size, w.s, w.spots, w'.spots);
  }

  lemma MoreCover(t: Table, size: int, s: set<string>, spots: set<Spot>, spots': set<Spot>)
    requires Grounded(t.types) && Covers(t, size, s, spots) && spots <= spots'
    ensures Covers(t, size, s, spots')
  {
  }

  lemma {:induction false} FieldsEnd(t: Table, size: int, w: Way, input: Input, path: seq<Token>, acc: seq<Hit>,
                                     max: int, fuel: nat, i: nat)
    requires NoWayBack(t, size, w.s) && AccessSize(input) == size && OnItsWay(t, size, w, input, fuel)
    requires input.base.base != "inline-array" && input.base.base in t.types
    requires t.types[input.base.base].kind.StructKind? && i <= |t.types[input.base.base].kind.fields|
    ensures Returns(SearchFields(t, input, path, acc, max, fuel, i))
    decreases fuel, 1, |t.types[input.base.base].kind.fields| - i
  {
    hide Loops, Closed, FieldFits, DistinctFields, OnItsWay, SearchField;
    assert fuel > 0 by { StartsWithFuel(t, size, w, input, fuel); }
    var fields := t.types[input.base.base].kind.fields;
    if i < |fields| {
      if fields[i].skip {
        FieldsEnd(t, size, w, input, path, acc, max, fuel, i + 1);
      } else if |acc| < max {
        FieldEnds(t, size, w, input, path, acc, max, fuel, i);
        var o := SearchField(t, input, path, acc, max, fuel, fields[i]);
        if o.Done? { FieldsEnd(t, size, w, input, path, o.hits, max, fuel, i + 1); }
      }
    }
  }

  lemma StartsWithFuel(t: Table, size: int, w: Way, input: Input, fuel: nat)
    requires Grounded(t.types) && OnItsWay(t, size, w, input, fuel)
    ensures fuel > 0
  {
  }

  lemma {:induction false} FieldEnds(t: Table, size: int, w: Way, input: Input, path: seq<Token>, acc: seq<Hit>,
                                     max: int, fuel: nat, i: nat)
    requires NoWayBack(t, size, w.s) && AccessSize(input) == size && OnItsWay(t, size, w, input, fuel)
    requires input.base.base != "inline-array" && input.base.base in t.types
    requires t.types[input.base.base].kind.StructKind? && i < |t.types[input.base.base].kind.fields|
    requires !t.types[input.base.base].kind.fields[i].skip
    ensures Returns(SearchField(t, input, path, acc, max, fuel, t.types[input.base.base].kind.fields[i]))
    decreases fuel, 0, 0
  {
    hide Search, Loops, Closed, FieldFits, DistinctFields, OnItsWay, GetFieldInfo, SizeInType, Grounded;
    StartsWithFuel(t, size, w, input, fuel);
    var owner := t.types[input.base.base];
    var f := owner.kind.fields[i];
    var into := input.offset + owner.BoxOffset() - f.offset;
    var info := GetFieldInfo(t, owner.name, f.name);
    if EntersField(t, size, f, into) && info.Some? && !info.value.needsDeref {
      var expected := if f.isInline then t.types[f.spec.base].BoxOffset() else 0;
      var next := Input(input.deref, into - expected, input.stride, info.value.spec);
      var w' := FieldGoesOn(t, size, w, input, i, next, fuel);
      SearchEnds(t, size, w', next, path + [FieldTok(f.name)], acc, max, fuel - 1);
    }
  }

  /** The size check of the search, and the check that an embedded type is defined. */
  predicate EntersField(t: Table, size: int, f: Field, into: int) {
    && 0 <= into && (f.dynamic || (SizeInType(t, f).Some? && into + size <= SizeInType(t, f).value))
    && (f.isInline ==> f.spec.base in t.types && !t.types[f.spec.base].kind.NullKind?)
  }

  lemma FieldGoesOn(t: Table, size: int, w: Way, input: Input, i: nat, next: Input, fuel: nat) returns (w': Way)
    requires NoWayBack(t, size, w.s) && OnItsWay(t, size, w, input, fuel)
    requires input.base.base != "inline-array" && input.base.base in t.types
    requires t.types[input.base.base].kind.StructKind? && i < |t.types[input.base.base].kind.fields|
    requires var owner := t.types[input.base.base];
             var f, into := owner.kind.fields[i], input.offset + owner.BoxOffset() - owner.kind.fields[i].offset;
             var info := GetFieldInfo(t, owner.name, f.name);
             && !f.skip && EntersField(t, size, f, into) && info.Some? && !info.value.needsDeref
             && next.base == info.value.spec && next.stride == input.stride
             && next.offset == into - (if f.isInline then t.types[f.spec.base].BoxOffset() else 0)
    ensures fuel > 0 && w'.s == w.s && OnItsWay(t, size, w', next, fuel - 1)
  {
    hide Loops, Closed, SizeInType, FieldFits, Covers, Goes, GoesBy, Trail, Arrival;
    var owner := t.types[input.base.base];
    var f := owner.kind.fields[i];
    var a := Spot(input.base.base, input.offset + owner.BoxOffset());
    ArrivesHere(t, input);
    WayIsShort(t, size, w);
    w' := w;
    if Arrival(t, next).Some? {
      var b := Arrival(t, next).value;
      FieldLands(t, size, input, i, next);
      StepGoes(t, size, w, a, i, b);
      w' := Way(w.s, w.spots, w.trail + [b]);
      WayIsShort(t, size, w');
    }
  }

  lemma ArrivesHere(t: Table, input: Input)
    requires Grounded(t.types) && input.base.base != "inline-array" && input.base.base in t.types
    requires t.types[input.base.base].kind.StructKind?
    ensures Arrival(t, input) == Some(Spot(input.base.base, input.offset + t.types[input.base.base].BoxOffset()))
  {
  }

  /** Where the search of a field starts is where the field leads. */
  lemma FieldLands(t: Table, size: int, input: Input, i: nat, next: Input)
    requires FieldsFit(t) && input.base.base in t.types
    requires t.types[input.base.base].kind.StructKind? && i < |t.types[input.base.base].kind.fields|
    requires var owner := t.types[input.base.base];
             var f, into := owner.kind.fields[i], input.offset + owner.BoxOffset() - owner.kind.fields[i].offset;
             var info := GetFieldInfo(t, owner.name, f.name);
             && !f.skip && EntersField(t, size, f, into) && info.Some? && !info.value.needsDeref
             && next.base == info.value.spec
             && next.offset == into - (if f.isInline then t.types[f.spec.base].BoxOffset() else 0)
    requires Arrival(t, next).Some?
    ensures var a := Spot(input.base.base, input.offset + t.types[input.base.base].BoxOffset());
            GoesBy(t, size, a, i, Arrival(t, next).value)
  {
    hide FieldFits, SizeInType, ElementAccess;
    var owner := t.types[input.base.base];
    var f := owner.kind.fields[i];
    FindDistinct(owner.kind.fields, i);
    var into := input.offset + owner.BoxOffset() - f.offset;
    assert Embeds(t, f);
    if f.isArray {
      var stride := ElementStride(t, f.spec).value;
      RestIsRemainder(into, stride);
    }
  }

  lemma RestIsRemainder(m: int, stride: int)
    requires stride > 0 && m >= 0
    ensures m - Quotient(m, stride) * stride == m % stride
  {
  }

  /** One step further. */
  lemma StepGoes(t: Table, size: int, w: Way, a: Spot, i: nat, b: Spot)
    requires Grounded(t.types) && Closed(t, w.s) && WayOk(t, size, w) && w.trail[|w.trail| - 1] == a
    requires i < |t.types[a.name].kind.fields| && GoesBy(t, size, a, i, b)
    ensures WayOk(t, size, Way(w.s, w.spots, w.trail + [b]))
  {
    hide ElementStride, SizeInType;
    assert Goes(t, size, a, b);
    assert t.types[a.name].kind.fields[i] in t.types[a.name].kind.fields;
    var trail := w.trail + [b];
    forall k | 0 <= k < |trail| - 1 ensures Goes(t, size, trail[k], trail[k + 1]) {
      assert trail[k] == w.trail[k] && (k + 1 < |w.trail| ==> trail[k + 1] == w.trail[k + 1]);
    }
  }

  /**
   Without a ring among them, every search that starts among the structures returns: loads, stores and addresses,
   with any stride and any limit, whatever it finds.
   */
  lemma LookupReturnsWithoutRing(t: Table, s: set<string>, input: Input, max: int)
    requires NoWayBack(t, AccessSize(input), s) && StartsIn(t, s, input.base)
    ensures LookupEnds(t, input, max)
  {
    hide FieldFits, DistinctFields, Loops, Covers;
    var size := AccessSize(input);
    var spots := SpotsCover(t, size, s);
    var w := Way(s, spots, []);
    if Arrival(t, input).Some? {
      var q := Arrival(t, input).value;
      w := Way(s, spots + {q}, [q]);
      MoreCover(t, size, s, spots, w.spots);
      ArrivesAmong(t, s, input);
    }
    var fuel: nat := Max(Enough(w, input.stride) + 1, 1);
    SearchEnds(t, size, w, input, [], [], max, fuel);
  }

  lemma ArrivesAmong(t: Table, s: set<string>, input: Input)
    requires Grounded(t.types) && StartsIn(t, s, input.base) && Arrival(t, input).Some?
    ensures Arrival(t, input).value.name in s
  {
  }

  // ---------------------------------------------------------------------------------------------
  // Round a ring the search goes on forever
  // ---------------------------------------------------------------------------------------------

  /** The elements of a pointer or boxed array are not what the load asks for. */
  ghost predicate Quiet(t: Table, dk: DerefKind, spec: TypeSpec)
    requires Grounded(t.types)
  {
    (spec.base == "pointer" || spec.base == "array") && spec.HasSingleArg() ==> !Accepts(t, spec.args[0], dk)
  }

  /** No visible cell of these structures is what the load asks for. */
  ghost predicate NoCellIn(t: Table, dk: DerefKind, s: set<string>)
    requires Grounded(t.types)
  {
    forall n <- s :: n in t.types && t.types[n].kind.StructKind?
      && forall f <- t.types[n].kind.fields :: !f.skip ==> NoCell(t, dk, f)
  }

  ghost predicate NoCell(t: Table, dk: DerefKind, f: Field)
    requires Grounded(t.types)
  {
    if Embeds(t, f) then Quiet(t, dk, f.spec) else !Accepts(t, f.spec, dk)
  }

  /** A load that finds nothing and meets no failure among the structures. */
  ghost predicate Fruitless(t: Table, dk: DerefKind, s: set<string>) {
    FieldsFit(t) && Closed(t, s) && AnswerableIn(t, s) && NoCellIn(t, dk, s) && dk.size >= 1
  }

  ghost predicate Barren(acc: seq<Hit>, o: Outcome) { o.Done? ==> o.hits == acc }

  lemma {:induction false} SearchBarren(t: Table, dk: DerefKind, s: set<string>, input: Input, path: seq<Token>,
                                        acc: seq<Hit>, max: int, fuel: nat)
    requires FieldsFit(t) && Closed(t, s) && NoCellIn(t, dk, s) && IsLoad(input) && input.deref.value == dk
    requires StartsIn(t, s, input.base) && Quiet(t, dk, Inner(input.base))
    ensures Barren(acc, Search(t, input, path, acc, max, fuel))
    decreases fuel, 2, 0
  {
    hide SearchFields, GetDerefInfo, SearchInlineArray, ArrayHits, Closed, NoCellIn, FieldFits, DistinctFields;
    if fuel > 0 {
      if input.base.base == "inline-array" {
        InlineBarren(t, dk, s, input, path, acc, max, fuel);
      } else {
        if (input.base.base == "array" || input.base.base == "pointer") && input.base.HasSingleArg() {
          ArrayBarren(t, input, path, acc, input.base.base == "array");
        }
        if input.base.base in t.types && t.types[input.base.base].kind.StructKind? {
          FieldsBarren(t, dk, s, input, path, acc, max, fuel, 0);
        }
        assert Barren(acc, SearchOther(t, input, path, acc, max, fuel));
        assert input.base.base == "pointer" ==> Barren(acc, Search(t, input, path, acc, max, fuel));
        assert input.base.base == "array" ==> Barren(acc, Search(t, input, path, acc, max, fuel));
      }
    }
  }

  lemma ArrayBarren(t: Table, input: Input, path: seq<Token>, acc: seq<Hit>, boxed: bool)
    requires Grounded(t.types) && IsLoad(input) && input.base.HasSingleArg()
    requires !Accepts(t, input.base.args[0], input.deref.value)
    ensures ArrayHits(t, input, path, boxed).Done? ==> acc + ArrayHits(t, input, path, boxed).hits == acc
  {
    hide GetDerefInfo;
  }

  lemma {:induction false} InlineBarren(t: Table, dk: DerefKind, s: set<string>, input: Input, path: seq<Token>,
                                        acc: seq<Hit>, max: int, fuel: nat)
    requires FieldsFit(t) && Closed(t, s) && NoCellIn(t, dk, s) && IsLoad(input) && input.deref.value == dk
    requires StartsIn(t, s, input.base) && Quiet(t, dk, Inner(input.base))
    requires fuel > 0 && input.base.base == "inline-array"
    ensures Barren(acc, SearchInlineArray(t, input, path, acc, max, fuel))
    decreases fuel, 1, 0
  {
    hide Search, GetDerefInfo, ElementIndex, SearchInlineArray, Closed, NoCellIn, FieldsFit, Quiet;
    FitsIsGrounded(t);
    if |acc| >= max {
      InlineFull(t, input, path, acc, max, fuel);
    } else if SearchInlineArray(t, input, path, acc, max, fuel).Done? {
      InlineDerefs(t, input, path, acc, max, fuel);
      ElementsAre(t, input);
      var path' := path + [ConstIdx(ElementIndex(t, input))];
      InlineLoad(t, input, path, acc, max, fuel);
      var elt := GetDerefInfo(t, input.base).value.result;
      SearchBarren(t, dk, s, Input(input.deref, ElementRest(t, input), 0, elt), path', acc, max, fuel - 1);
    }
  }

  lemma {:induction false} FieldsBarren(t: Table, dk: DerefKind, s: set<string>, input: Input, path: seq<Token>,
                                        acc: seq<Hit>, max: int, fuel: nat, i: nat)
    requires FieldsFit(t) && Closed(t, s) && NoCellIn(t, dk, s) && IsLoad(input) && input.deref.value == dk
    requires fuel > 0 && input.base.base in s && input.base.base in t.types
    requires t.types[input.base.base].kind.StructKind? && i <= |t.types[input.base.base].kind.fields|
    ensures Barren(acc, SearchFields(t, input, path, acc, max, fuel, i))
    decreases fuel, 1, |t.types[input.base.base].kind.fields| - i
  {
    hide SearchField, Closed, NoCellIn, FieldFits, DistinctFields;
    var fields := t.types[input.base.base].kind.fields;
    if i < |fields| {
      if fields[i].skip {
        FieldsBarren(t, dk, s, input, path, acc, max, fuel, i + 1);
      } else if |acc| < max {
        FieldBarren(t, dk, s, input, path, acc, max, fuel, i);
        if SearchField(t, input, path, acc, max, fuel, fields[i]).Done? {
          FieldsBarren(t, dk, s, input, path, acc, max, fuel, i + 1);
        }
      }
    }
  }

  lemma {:induction false} FieldBarren(t: Table, dk: DerefKind, s: set<string>, input: Input, path: seq<Token>,
                                       acc: seq<Hit>, max: int, fuel: nat, i: nat)
    requires FieldsFit(t) && Closed(t, s) && NoCellIn(t, dk, s) && IsLoad(input) && input.deref.value == dk
    requires fuel > 0 && input.base.base in s && input.base.base in t.types
    requires t.types[input.base.base].kind.StructKind? && i < |t.types[input.base.base].kind.fields|
    requires !t.types[input.base.base].kind.fields[i].skip
    ensures Barren(acc, SearchField(t, input, path, acc, max, fuel, t.types[input.base.base].kind.fields[i]))
    decreases fuel, 0, 0
  {
    hide Search, GetFieldInfo, SizeInType, GetCellInfo, Closed, NoCellIn, FieldsFit, Quiet, Accepts, StartsIn;
    FitsIsGrounded(t);
    var owner := t.types[input.base.base];
    var f := owner.kind.fields[i];
    var info := GetFieldInfo(t, owner.name, f.name);
    if info.Some? {
      if info.value.needsDeref {
        NotMatched(t, dk, s, input.base.base, i);
      } else if f.isInline ==> f.spec.base in t.types && !t.types[f.spec.base].kind.NullKind? {
        FieldStaysIn(t, dk, s, input.base.base, i);
        var into := input.offset + owner.BoxOffset() - f.offset;
        var expected := if f.isInline then t.types[f.spec.base].BoxOffset() else 0;
        var next := Input(input.deref, into - expected, 0, info.value.spec);
        SearchBarren(t, dk, s, next, path + [FieldTok(f.name)], acc, max, fuel - 1);
      }
    }
  }

  lemma NotMatched(t: Table, dk: DerefKind, s: set<string>, owner: string, i: nat)
    requires FieldsFit(t) && NoCellIn(t, dk, s) && owner in s && owner in t.types
    requires t.types[owner].kind.StructKind? && i < |t.types[owner].kind.fields| && !t.types[owner].kind.fields[i].skip
    requires var info := GetFieldInfo(t, t.types[owner].name, t.types[owner].kind.fields[i].name);
             info.Some? && info.value.needsDeref
    ensures var info := GetFieldInfo(t, t.types[owner].name, t.types[owner].kind.fields[i].name).value;
            var cell := GetCellInfo(t, info.spec);
            cell.Some? ==> !cell.value.Matches(dk)
  {
    hide GetCellInfo, FieldFits, CellInfo.Matches;
    FieldIsFound(t, owner, i);
    assert NoCell(t, dk, t.types[owner].kind.fields[i]);
  }

  lemma FieldStaysIn(t: Table, dk: DerefKind, s: set<string>, owner: string, i: nat)
    requires FieldsFit(t) && Closed(t, s) && NoCellIn(t, dk, s) && owner in s && owner in t.types
    requires t.types[owner].kind.StructKind? && i < |t.types[owner].kind.fields| && !t.types[owner].kind.fields[i].skip
    requires var info := GetFieldInfo(t, t.types[owner].name, t.types[owner].kind.fields[i].name);
             info.Some? && !info.value.needsDeref
    requires var f := t.types[owner].kind.fields[i];
             f.isInline ==> f.spec.base in t.types && !t.types[f.spec.base].kind.NullKind?
    ensures var info := GetFieldInfo(t, t.types[owner].name, t.types[owner].kind.fields[i].name).value;
            StartsIn(t, s, info.spec) && Quiet(t, dk, Inner(info.spec))
  {
    hide Accepts, FieldFits;
    FieldIsFound(t, owner, i);
    assert NoCell(t, dk, t.types[owner].kind.fields[i]);
  }

  lemma FieldIsFound(t: Table, owner: string, i: nat)
    requires FieldsFit(t) && owner in t.types && t.types[owner].kind.StructKind? && i < |t.types[owner].kind.fields|
    ensures t.types[owner].name == owner && t.types[owner].kind.fields[i] in t.types[owner].kind.fields
    ensures FindField(t.types[owner].kind.fields, t.types[owner].kind.fields[i].name)
        == Some(t.types[owner].kind.fields[i])
    ensures FieldFits(t, t.types[owner], t.types[owner].kind.fields[i])
  {
    hide FieldFits;
    FindDistinct(t.types[owner].kind.fields, i);
  }

  /** The load at a spot, asked for through a reference of this type. */
  function AtSpot(t: Table, dk: DerefKind, spec: TypeSpec, at: int): Input
  {
    Input(Some(dk), at - Lead(t, spec), 0, spec)
  }

  lemma {:induction false} RingSpins(t: Table, dk: DerefKind, s: set<string>, ps: seq<Spot>, k: nat, spec: TypeSpec,
                                     path: seq<Token>, acc: seq<Hit>, max: int, fuel: nat)
    requires Fruitless(t, dk, s) && Ring(t, dk.size, s, ps) && k < |ps| - 1 && |acc| < max
    requires spec.base == ps[k].name && Askable(t, spec)
    ensures Search(t, AtSpot(t, dk, spec, ps[k].at), path, acc, max, fuel) == OutOfFuel
    decreases fuel, 2
  {
    hide Search, AnswerableIn, NoCellIn, Closed, FieldFits, DistinctFields, GoesBy, Askable;
    var input := AtSpot(t, dk, spec, ps[k].at);
    if fuel == 0 {
      NothingWithoutFuel(t, input, path, acc, max);
    } else {
      assert Goes(t, dk.size, ps[k], ps[k + 1]);
      var i :| 0 <= i < |t.types[ps[k].name].kind.fields| && GoesBy(t, dk.size, ps[k], i, ps[k + 1]);
      FieldSpins(t, dk, s, ps, k, spec, i, path, acc, max, fuel);
      GoingEmbeds(t, dk.size, ps[k], i, ps[k + 1]);
      FieldsSpin(t, dk, s, input, i, 0, path, acc, max, fuel);
      SearchIsFields(t, input, path, acc, max, fuel);
    }
  }

  lemma NothingWithoutFuel(t: Table, input: Input, path: seq<Token>, acc: seq<Hit>, max: int)
    requires Grounded(t.types)
    ensures Search(t, input, path, acc, max, 0) == OutOfFuel
  {
  }

  /** Steps start from a visible field that embeds structures; a boxed array has none. */
  lemma GoingEmbeds(t: Table, size: int, a: Spot, i: nat, b: Spot)
    requires FieldsFit(t) && a.name in t.types && t.types[a.name].kind.StructKind?
    requires i < |t.types[a.name].kind.fields| && GoesBy(t, size, a, i, b)
    ensures !t.types[a.name].kind.fields[i].skip && Embeds(t, t.types[a.name].kind.fields[i])
    ensures a.name != "array" && a.name != "pointer" && a.name != "inline-array"
    ensures b.name == t.types[a.name].kind.fields[i].spec.base
  {
    hide FieldFits, DistinctFields, SizeInType, ElementStride;
    assert t.types[a.name].kind.fields[i] in t.types[a.name].kind.fields;
  }

  lemma SearchIsFields(t: Table, input: Input, path: seq<Token>, acc: seq<Hit>, max: int, fuel: nat)
    requires Grounded(t.types) && fuel > 0
    requires input.base.base in t.types && t.types[input.base.base].kind.StructKind?
    requires input.base.base != "array" && input.base.base != "pointer" && input.base.base != "inline-array"
    ensures Search(t, input, path, acc, max, fuel) == SearchFields(t, input, path, acc, max, fuel, 0)
  {
    hide SearchFields;
    assert Search(t, input, path, acc, max, fuel) == SearchOther(t, input, path, acc, max, fuel);
  }

  /** Into the embedded structure, and through the array of them if the field is one. */
  lemma {:induction false} FieldSpins(t: Table, dk: DerefKind, s: set<string>, ps: seq<Spot>, k: nat, spec: TypeSpec,
                                      i: nat, path: seq<Token>, acc: seq<Hit>, max: int, fuel: nat)
    requires Fruitless(t, dk, s) && Ring(t, dk.size, s, ps) && k < |ps| - 1 && |acc| < max && fuel > 0
    requires spec.base == ps[k].name && ps[k].name in t.types && t.types[ps[k].name].kind.StructKind?
    requires i < |t.types[ps[k].name].kind.fields| && GoesBy(t, dk.size, ps[k], i, ps[k + 1])
    ensures var input := AtSpot(t, dk, spec, ps[k].at);
            SearchField(t, input, path, acc, max, fuel, t.types[ps[k].name].kind.fields[i]) == OutOfFuel
    decreases fuel, 1
  {
    hide Search, AnswerableIn, NoCellIn, Closed, FieldFits, DistinctFields, SearchField, GoesBy, Goes, Askable;
    var f := t.types[ps[k].name].kind.fields[i];
    var k' := if k + 1 == |ps| - 1 then 0 else k + 1;
    var path' := path + [FieldTok(f.name)];
    GoingEmbeds(t, dk.size, ps[k], i, ps[k + 1]);
    if f.isArray {
      var idx := ArrayIsEntered(t, dk, s, spec, ps[k].at, i, ps[k + 1], path, acc, max, fuel);
      if fuel > 1 { RingSpins(t, dk, s, ps, k', f.spec, path' + [ConstIdx(idx)], acc, max, fuel - 2); }
    } else {
      FieldIsEntered(t, dk, s, spec, ps[k].at, i, ps[k + 1], path, acc, max, fuel);
      RingSpins(t, dk, s, ps, k', f.spec, path', acc, max, fuel - 1);
    }
  }

  lemma FieldIsEntered(t: Table, dk: DerefKind, s: set<string>, spec: TypeSpec, at: int, i: nat, b: Spot,
                       path: seq<Token>, acc: seq<Hit>, max: int, fuel: nat)
    requires Fruitless(t, dk, s) && fuel > 0 && spec.base in s
    requires spec.base in t.types && t.types[spec.base].kind.StructKind? && i < |t.types[spec.base].kind.fields|
    requires GoesBy(t, dk.size, Spot(spec.base, at), i, b) && !t.types[spec.base].kind.fields[i].isArray
    ensures var f := t.types[spec.base].kind.fields[i];
            && Askable(t, f.spec)
            && SearchField(t, AtSpot(t, dk, spec, at), path, acc, max, fuel, f)
               == Search(t, AtSpot(t, dk, f.spec, b.at), path + [FieldTok(f.name)], acc, max, fuel - 1)
  {
    hide Search, NoCellIn, Closed, FieldFits, DistinctFields, ElementStride;
    var f := t.types[spec.base].kind.fields[i];
    GoingEmbeds(t, dk.size, Spot(spec.base, at), i, b);
    FieldIsFound(t, spec.base, i);
    assert AnswerableField(t, f) && f.spec.base != "inline-array";
  }

  /** First the array, at the start of its memory, then the element the offset is in. */
  lemma ArrayIsEntered(t: Table, dk: DerefKind, s: set<string>, spec: TypeSpec, at: int, i: nat, b: Spot,
                       path: seq<Token>, acc: seq<Hit>, max: int, fuel: nat) returns (idx: int)
    requires Fruitless(t, dk, s) && fuel > 0 && |acc| < max && spec.base in s
    requires spec.base in t.types && t.types[spec.base].kind.StructKind? && i < |t.types[spec.base].kind.fields|
    requires GoesBy(t, dk.size, Spot(spec.base, at), i, b) && t.types[spec.base].kind.fields[i].isArray
    ensures Askable(t, t.types[spec.base].kind.fields[i].spec)
    ensures var f := t.types[spec.base].kind.fields[i];
            SearchField(t, AtSpot(t, dk, spec, at), path, acc, max, fuel, f)
            == if fuel == 1 then OutOfFuel
               else Search(t, AtSpot(t, dk, f.spec, b.at), path + [FieldTok(f.name)] + [ConstIdx(idx)], acc, max,
                           fuel - 2)
  {
    hide Search, NoCellIn, Closed, FieldFits, DistinctFields, SearchField, GetDerefInfo;
    var f := t.types[spec.base].kind.fields[i];
    var into := at - f.offset;
    var next := Input(Some(dk), into - Lead(t, InlineArrayOf(f.spec)), 0, InlineArrayOf(f.spec));
    ArrayField(t, dk, s, spec, at, i, b, path, acc, max, fuel);
    if fuel == 1 {
      idx := 0;
      NothingWithoutFuel(t, next, path + [FieldTok(f.name)], acc, max);
    } else {
      idx := ElementIndex(t, next);
      ElementIsEntered(t, dk, f.spec, into, b.at, path + [FieldTok(f.name)], acc, max, fuel - 1);
    }
  }

  lemma ArrayField(t: Table, dk: DerefKind, s: set<string>, spec: TypeSpec, at: int, i: nat, b: Spot,
                   path: seq<Token>, acc: seq<Hit>, max: int, fuel: nat)
    requires Fruitless(t, dk, s) && fuel > 0 && spec.base in s
    requires spec.base in t.types && t.types[spec.base].kind.StructKind? && i < |t.types[spec.base].kind.fields|
    requires GoesBy(t, dk.size, Spot(spec.base, at), i, b) && t.types[spec.base].kind.fields[i].isArray
    ensures var f := t.types[spec.base].kind.fields[i];
            var inner := InlineArrayOf(f.spec);
            && Askable(t, inner) && Askable(t, f.spec) && NamesKnown(t) && 0 <= at - f.offset
            && ElementStride(t, f.spec).Some? && b.at == (at - f.offset) % ElementStride(t, f.spec).value
            && SearchField(t, AtSpot(t, dk, spec, at), path, acc, max, fuel, f)
               == Search(t, AtSpot(t, dk, inner, at - f.offset), path + [FieldTok(f.name)], acc, max, fuel - 1)
  {
    hide Search, NoCellIn, Closed, FieldFits, DistinctFields, ElementAccess;
    var f := t.types[spec.base].kind.fields[i];
    GoingEmbeds(t, dk.size, Spot(spec.base, at), i, b);
    FieldIsFound(t, spec.base, i);
    assert AnswerableField(t, f) && f.spec.base != "inline-array";
  }

  lemma ElementIsEntered(t: Table, dk: DerefKind, elt: TypeSpec, into: int, at: int, path: seq<Token>, acc: seq<Hit>,
                         max: int, fuel: nat)
    requires FieldsFit(t) && NamesKnown(t) && Askable(t, InlineArrayOf(elt)) && fuel > 0 && |acc| < max && 0 <= into
    requires ElementStride(t, elt).Some? && at == into % ElementStride(t, elt).value
    ensures var input := AtSpot(t, dk, InlineArrayOf(elt), into);
            Search(t, input, path, acc, max, fuel)
            == Search(t, AtSpot(t, dk, elt, at), path + [ConstIdx(ElementIndex(t, input))], acc, max, fuel - 1)
  {
    hide FieldFits, DistinctFields, GetDerefInfo, SearchInlineArray, SearchFields;
    InlineKnown(t, InlineArrayOf(elt));
    var input := AtSpot(t, dk, InlineArrayOf(elt), into);
    ElementsAre(t, input);
    RestIsRemainder(into, ElementStride(t, elt).value);
    InlineLoad(t, input, path, acc, max, fuel);
  }

  /** The fields before it add nothing and do not stop the search. */
  lemma {:induction false} FieldsSpin(t: Table, dk: DerefKind, s: set<string>, input: Input, i: nat, j: nat,
                                      path: seq<Token>, acc: seq<Hit>, max: int, fuel: nat)
    requires Fruitless(t, dk, s) && |acc| < max && fuel > 0 && IsLoad(input) && input.deref.value == dk
    requires input.base.base in s && input.base.base in t.types && t.types[input.base.base].kind.StructKind?
    requires j <= i < |t.types[input.base.base].kind.fields| && !t.types[input.base.base].kind.fields[i].skip
    requires SearchField(t, input, path, acc, max, fuel, t.types[input.base.base].kind.fields[i]) == OutOfFuel
    ensures SearchFields(t, input, path, acc, max, fuel, j) == OutOfFuel
    decreases i - j
  {
    hide SearchField, AnswerableIn, NoCellIn, Closed, FieldFits, DistinctFields;
    var f := t.types[input.base.base].kind.fields[j];
    if j < i {
      FieldsSpin(t, dk, s, input, i, j + 1, path, acc, max, fuel);
      if !f.skip {
        FieldBarren(t, dk, s, input, path, acc, max, fuel, j);
        FieldNormal(t, s, input, path, acc, max, fuel, j);
      }
    }
  }

  /**
   Which loads can be looked up. Take structures that embed each other only, among which no search fails and no
   visible cell is what the load asks for: all lookups of the load that start among them return if and only if an
   access of its size cannot come back to where it was.
   */
  lemma LookupsReturnExactly(t: Table, dk: DerefKind, s: set<string>)
    requires Fruitless(t, dk, s)
    ensures (forall input: Input, max: int :: input.deref == Some(dk) && StartsIn(t, s, input.base) ==>
        LookupEnds(t, input, max))
            <==> !Loops(t, dk.size, s)
  {
    hide FieldFits, DistinctFields, AnswerableIn, NoCellIn, Search, Goes;
    if Loops(t, dk.size, s) {
      var ps: seq<Spot> :| Ring(t, dk.size, s, ps);
      var spec := Simple(ps[0].name);
      var input := AtSpot(t, dk, spec, ps[0].at);
      RingIsAskable(t, dk.size, s, ps);
      forall fuel: nat ensures !Returns(Search(t, input, [], [], 1, fuel)) {
        RingSpins(t, dk, s, ps, 0, spec, [], [], 1, fuel);
      }
      assert !LookupEnds(t, input, 1);
    } else {
      forall input: Input, max: int | input.deref == Some(dk) && StartsIn(t, s, input.base)
        ensures LookupEnds(t, input, max)
      {
        LookupReturnsWithoutRing(t, s, input, max);
      }
    }
  }

  lemma RingIsAskable(t: Table, size: int, s: set<string>, ps: seq<Spot>)
    requires FieldsFit(t) && Closed(t, s) && Ring(t, size, s, ps)
    ensures Askable(t, Simple(ps[0].name)) && StartsIn(t, s, Simple(ps[0].name))
  {
    hide FieldFits, DistinctFields, GoesBy;
    assert Goes(t, size, ps[0], ps[1]);
    var i :| 0 <= i < |t.types[ps[0].name].kind.fields| && GoesBy(t, size, ps[0], i, ps[1]);
    GoingEmbeds(t, size, ps[0], i, ps[1]);
  }

  // ---------------------------------------------------------------------------------------------
  // What rings are like
  // ---------------------------------------------------------------------------------------------

  /** Structures that embed each other at their starts, and the first one again at last. */
  ghost predicate EmbedsItself(t: Table, size: int, s: set<string>)
    requires Grounded(t.types)
  {
    exists ps :: Ring(t, size, s, ps) && AtStarts(ps)
  }

  predicate AtStarts(ps: seq<Spot>) { forall k :: 0 <= k < |ps| ==> ps[k].at == 0 }

  /** Without early fields a step never moves the offset up, and one that keeps it can be made from offset 0, too. */
  lemma StepsFall(t: Table, size: int, s: set<string>, a: Spot, b: Spot)
    requires Grounded(t.types) && a.name in s && NonNegative(t, a.name) && Goes(t, size, a, b)
    ensures b.at <= a.at && (b.at == a.at ==> Goes(t, size, Spot(a.name, 0), Spot(b.name, 0)))
  {
    hide Landing;
    var i :| 0 <= i < |t.types[a.name].kind.fields| && GoesBy(t, size, a, i, b);
    var f := t.types[a.name].kind.fields[i];
    assert f in t.types[a.name].kind.fields && f.offset >= 0;
    LandingFalls(t, size, f, a.at - f.offset, b);
    if b.at == a.at { assert GoesBy(t, size, Spot(a.name, 0), i, Spot(b.name, 0)); }
  }

  lemma LandingFalls(t: Table, size: int, f: Field, into: int, b: Spot)
    requires Grounded(t.types) && Landing(t, size, f, into) == Some(b)
    ensures 0 <= b.at <= into && Landing(t, size, f, 0) == Some(Spot(b.name, 0))
  {
    hide ElementAccess, SizeInType;
    if f.isArray { RemainderFalls(into, ElementStride(t, f.spec).value); }
  }

  lemma RemainderFalls(x: int, stride: int)
    requires stride > 0 && x >= 0
    ensures 0 <= x % stride <= x && 0 % stride == 0
  {
    if x < stride { DivModUnique(x, stride, 0, x); }
    DivModUnique(0, stride, 0, 0);
  }

  lemma {:induction false} TrailFalls(t: Table, size: int, s: set<string>, ps: seq<Spot>, j: nat, k: nat)
    requires Grounded(t.types) && Trail(t, size, s, ps) && j <= k < |ps| && forall n <- s :: NonNegative(t, n)
    ensures ps[k].at <= ps[j].at
    decreases k
  {
    hide Goes;
    if j < k {
      TrailFalls(t, size, s, ps, j, k - 1);
      assert Goes(t, size, ps[k - 1], ps[k - 1 + 1]);
      StepsFall(t, size, s, ps[k - 1], ps[k]);
    }
  }

  /** So where no structure has a field before its start, only structures that embed each other at offset 0 matter. */
  lemma LoopsAtStart(t: Table, size: int, s: set<string>)
    requires Grounded(t.types) && forall n <- s :: NonNegative(t, n)
    ensures Loops(t, size, s) <==> EmbedsItself(t, size, s)
  {
    hide Goes;
    if Loops(t, size, s) {
      var ps: seq<Spot> :| Ring(t, size, s, ps);
      var ring := seq(|ps|, k requires 0 <= k < |ps| => Spot(ps[k].name, 0));
      forall k | 0 <= k < |ring| - 1 ensures Goes(t, size, ring[k], ring[k + 1]) {
        assert Goes(t, size, ps[k], ps[k + 1]);
        StepsFall(t, size, s, ps[k], ps[k + 1]);
        TrailFalls(t, size, s, ps, 0, k);
        TrailFalls(t, size, s, ps, k + 1, |ps| - 1);
      }
      assert Ring(t, size, s, ring) && AtStarts(ring);
    }
  }

  /** There is no ring where embedded types are older than their owners. */
  lemma OlderMakesNoRing(t: Table, size: int, s: set<string>)
    requires Grounded(t.types) && InlineDefined(t)
    ensures !Loops(t, size, s)
  {
    hide Goes;
    forall ps: seq<Spot> | Ring(t, size, s, ps) ensures false { TrailIsYounger(t, size, s, ps, |ps| - 1); }
  }

  lemma {:induction false} TrailIsYounger(t: Table, size: int, s: set<string>, ps: seq<Spot>, k: nat)
    requires Grounded(t.types) && InlineDefined(t) && Trail(t, size, s, ps) && 0 < k < |ps|
    ensures ps[k].name in t.types && ps[0].name in t.types
    ensures t.types[ps[k].name].serial < t.types[ps[0].name].serial
  {
    hide ElementStride, SizeInType;
    if k > 1 { TrailIsYounger(t, size, s, ps, k - 1); }
    var a := ps[k - 1];
    assert Goes(t, size, a, ps[k - 1 + 1]);
    var i :| 0 <= i < |t.types[a.name].kind.fields| && GoesBy(t, size, a, i, ps[k]);
    assert t.types[a.name].kind.fields[i] in t.types[a.name].kind.fields;
    assert EmbedsOlder(t, t.types[a.name], t.types[a.name].kind.fields[i]);
  }
}

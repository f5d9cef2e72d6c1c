/**
 `SmallVector` of `SmallVector.h`: a vector that keeps few elements inside itself and many on the
 heap. Slots are raw memory or hold a constructed object; objects are constructed in raw slots
 only, destroyed once, and blocks are freed with no object left in them.
 */
module SmallVectors {
  datatype Slot<T> = Raw | Object(value: T)

  ghost predicate AllRaw<T>(slots: seq<Slot<T>>) { forall i :: 0 <= i < |slots| ==> slots[i].Raw? }

  ghost predicate AllObjects<T>(slots: seq<Slot<T>>) { forall i :: 0 <= i < |slots| ==> slots[i].Object? }

  function Objects<T>(values: seq<T>): (slots: seq<Slot<T>>)
    ensures |slots| == |values| && forall i :: 0 <= i < |slots| ==> slots[i] == Object(values[i])
  {
    seq(|values|, i requires 0 <= i < |values| => Object(values[i]))
  }

  function Raws<T>(n: nat): (slots: seq<Slot<T>>)
    ensures |slots| == n && forall i :: 0 <= i < n ==> slots[i] == Raw
  {
    seq(n, _ => Raw)
  }

  /** The heap: which arrays are allocated, and which vector each belongs to. */
  class Heap<T> {
    ghost var owner: map<array<Slot<T>>, SmallVector<T>>

    constructor ()
      ensures owner == map[]
    {
      owner := map[];
    }

    /** What belongs to other vectors. */
    ghost function Others(vectors: set<SmallVector<T>>): map<array<Slot<T>>, SmallVector<T>>
      reads this
    {
      map b | b in owner && owner[b] !in vectors :: owner[b]
    }

    method Allocate(count: nat, who: SmallVector<T>) returns (block: array<Slot<T>>)
      modifies this
      ensures fresh(block) && block[..] == Raws(count) && owner == old(owner)[block := who]
    {
      block := new Slot<T>[count](_ => Raw);
      owner := owner[block := who];
    }

    /** No object is destroyed here, so none may be left. */
    method Free(block: array<Slot<T>>)
      requires block in owner && AllRaw(block[..])
      modifies this
      ensures owner == old(owner) - {block}
    {
      owner := owner - {block};
    }
  }

  // ---------------------------------------------------------------------------------------------
  // Construction helpers
  // ---------------------------------------------------------------------------------------------

  /** Copies of the values, in raw slots from `at` on. */
  method ConstructObjects<T>(slots: array<Slot<T>>, at: nat, values: seq<T>)
    requires at + |values| <= slots.Length && AllRaw(slots[at..at + |values|])
    modifies slots
    ensures slots[..] == old(slots[..at]) + Objects(values) + old(slots[at + |values|..])
  {
    for i := 0 to |values|
      invariant slots[..at] == old(slots[..at]) && slots[at + i..] == old(slots[at + i..])
      invariant forall k :: 0 <= k < i ==> slots[at + k] == Object(values[k])
    {
      assert old(slots[at..at + |values|])[i].Raw?;
      slots[at + i] := Object(values[i]);
    }
  }

  /** Copies of another array's first objects, in the first slots. */
  method CopyConstructObjects<T>(dst: array<Slot<T>>, src: array<Slot<T>>, count: nat)
    requires dst != src && count <= dst.Length && count <= src.Length && AllRaw(dst[..count])
             && AllObjects(src[..count])
    modifies dst
    ensures dst[..] == src[..count] + old(dst[count..])
  {
    ghost var d := dst[..];
    for i := 0 to count
      invariant forall j :: 0 <= j < dst.Length ==> dst[j] == if j < i then src[j] else d[j]
    {
      assert d[..count][i].Raw? && src[..count][i].Object?;
      dst[i] := src[i];
    }
    assert dst[..] == src[..count] + d[count..];
  }

  method DestroyObjects<T>(slots: array<Slot<T>>, count: nat)
    requires count <= slots.Length && AllObjects(slots[..count])
    modifies slots
    ensures slots[..] == Raws(count) + old(slots[count..])
  {
    for i := 0 to count
      invariant forall k :: 0 <= k < i ==> slots[k] == Raw
      invariant slots[i..] == old(slots[i..])
    {
      assert old(slots[..count])[i].Object?;
      slots[i] := Raw;
    }
  }

  /** Each object is moved to a raw slot of another array and destroyed where it was. */
  method MoveAndDestroy<T>(dst: array<Slot<T>>, to: nat, src: array<Slot<T>>, from: nat, count: nat)
    requires dst != src && to + count <= dst.Length && from + count <= src.Length
    requires AllRaw(dst[to..to + count]) && AllObjects(src[from..from + count])
    modifies dst, src
    ensures dst[..] == old(dst[..to]) + old(src[from..from + count]) + old(dst[to + count..])
    ensures src[..] == old(src[..from]) + Raws(count) + old(src[from + count..])
  {
    ghost var d, s := dst[..], src[..];
    for i := 0 to count
      invariant forall j :: 0 <= j < dst.Length ==> dst[j] == if to <= j < to + i then s[from + j - to] else d[j]
      invariant forall j :: 0 <= j < src.Length ==> src[j] == if from <= j < from + i then Raw else s[j]
    {
      assert d[to..to + count][i].Raw? && s[from..from + count][i].Object?;
      dst[to + i] := src[from + i];
      src[from + i] := Raw;
    }
    assert dst[..] == d[..to] + s[from..from + count] + d[to + count..];
    assert src[..] == s[..from] + Raws(count) + s[from + count..];
  }

  lemma NothingHeld<T>(slots: array<Slot<T>>)
    requires AllRaw(slots[..])
    ensures Holds(slots, []) && slots[..] == Raws(slots.Length)
  {
    assert Objects<T>([]) + Raws(slots.Length) == Raws(slots.Length);
  }

  /** All the objects of one array to another one, which was raw. */
  method MoveAll<T>(dst: array<Slot<T>>, src: array<Slot<T>>, count: nat, ghost values: seq<T>)
    requires dst != src && count == |values| <= dst.Length && dst[..] == Raws(dst.Length) && Holds(src, values)
    modifies dst, src
    ensures Holds(dst, values) && Holds(src, []) && src[..] == Raws(src.Length)
  {
    assert src[..count] == Objects(values) && src[count..] == Raws(src.Length - count);
    MoveAndDestroy(dst, 0, src, 0, count);
    assert src[..] == Raws(src.Length) && dst[..] == Objects(values) + Raws(dst.Length - count);
    assert Objects<T>([]) + Raws(src.Length) == Raws(src.Length);
  }

  /** The same within one array, one slot up, from the last object down. */
  method MoveUpAndDestroy<T>(slots: array<Slot<T>>, from: nat, count: nat)
    requires from + count < slots.Length && AllObjects(slots[from..from + count]) && slots[from + count].Raw?
    modifies slots
    ensures slots[..] == old(slots[..from]) + [Raw] + old(slots[from..from + count]) + old(slots[from + count + 1..])
  {
    ghost var s := slots[..];
    var i := count;
    assert slots[..] == MovedUp(s, from, count, count);
    while i > 0
      invariant 0 <= i <= count && slots[..] == MovedUp(s, from, i, count)
    {
      i := i - 1;
      assert s[from..from + count][i].Object? && slots[from + i] == slots[..][from + i] == s[from + i];
      MovedUpStep(s, from, i, count);
      slots[from + i + 1] := slots[from + i];
      slots[from + i] := Raw;
    }
  }

  /** The objects from `from + i` on moved up, the gap below them, and the others as they were. */
  ghost function MovedUp<T>(s: seq<Slot<T>>, from: nat, i: nat, count: nat): (r: seq<Slot<T>>)
    requires i <= count && from + count < |s|
    ensures |r| == |s| && forall k :: 0 <= k < from + i ==> r[k] == s[k]
  {
    s[..from + i] + [Raw] + s[from + i..from + count] + s[from + count + 1..]
  }

  lemma MovedUpStep<T>(s: seq<Slot<T>>, from: nat, i: nat, count: nat)
    requires i < count && from + count < |s|
    ensures MovedUp(s, from, i + 1, count)[from + i + 1 := s[from + i]][from + i := Raw] == MovedUp(s, from, i, count)
  {
  }

  /** How much is asked for when the storage is full. */
  function Grown(size: nat): nat { 3 * (size + 1) / 2 }

  // ---------------------------------------------------------------------------------------------
  // The vector
  // ---------------------------------------------------------------------------------------------

  class SmallVector<T> {
    const heap: Heap<T>
    const inline: array<Slot<T>>
    var storage: array<Slot<T>>
    var size: nat
    /** The elements, and how many objects were moved so far because the storage grew. */
    ghost var contents: seq<T>
    ghost var moves: nat

    /** Its own storage or a larger block; the first slots hold the elements, and nothing else is constructed. */
    ghost predicate Valid()
      reads this, inline, storage
    {
      && inline.Length > 0 && |contents| == size <= storage.Length && Holds(storage, contents)
      && (storage != inline ==> storage.Length > inline.Length && inline[..] == Raws(inline.Length))
    }

    /** Its own storage and its block belong to it, and nothing else does. */
    ghost predicate OnHeap()
      reads this, heap
    {
      && inline in heap.owner && heap.owner[inline] == this && storage in heap.owner && heap.owner[storage] == this
      && forall b <- heap.owner :: heap.owner[b] == this ==> b == inline || b == storage
    }

    predicate UsingHeap()
      reads this
    {
      storage != inline
    }

    /** From a list of values: the other constructors give copies of one value, a range, or nothing. */
    constructor (heap: Heap<T>, inlineCount: nat, values: seq<T>)
      requires inlineCount > 0
      modifies heap
      ensures Valid() && OnHeap() && contents == values && fresh(storage) && fresh(inline)
      ensures this.heap == heap && inline.Length == inlineCount && moves == 0 && heap.Others({this}) == old(heap.owner)
    {
      this.heap := heap;
      var own := new Slot<T>[inlineCount](_ => Raw);
      inline, storage, size, contents, moves := own, own, |values|, values, 0;
      new;
      heap.owner := heap.owner[own := this];
      if |values| > inlineCount {
        var block := heap.Allocate(|values|, this);
        storage := block;
      }
      ConstructObjects(storage, 0, values);
    }

    /** A copy has the size of the other's elements, not of its storage. */
    constructor Copy(other: SmallVector<T>)
      requires other.Valid() && other.OnHeap()
      modifies other.heap
      ensures Valid() && OnHeap() && contents == other.contents && fresh(storage) && fresh(inline)
      ensures heap == other.heap && inline.Length == other.inline.Length && moves == 0
      ensures heap.Others({this}) == old(other.heap.owner)
    {
      heap := other.heap;
      var own := new Slot<T>[other.inline.Length](_ => Raw);
      inline, storage, size, contents, moves := own, own, 0, [], 0;
      new;
      Register();
      NothingHeld(own);
      hide Holds;
      Refit(other.size);
      CopyFrom(other);
    }

    /** A block is stolen; objects held inside are moved one by one. */
    constructor Move(other: SmallVector<T>)
      requires other.Valid() && other.OnHeap()
      modifies other, other.inline, other.heap
      ensures Valid() && OnHeap() && contents == old(other.contents) && other.Valid() && other.OnHeap()
              && other.contents == []
      ensures fresh(inline) && inline.Length == other.inline.Length && heap == other.heap && moves == 0
      ensures heap.Others({this, other}) == old(other.heap.Others({other})) && other.storage == other.inline
    {
      heap := other.heap;
      var own := new Slot<T>[other.inline.Length](_ => Raw);
      inline, storage, size, contents, moves := own, own, 0, [], 0;
      new;
      Register();
      NothingHeld(own);
      hide Holds;
      if other.UsingHeap() { StealFrom(other); } else { MoveInside(other); }
    }

    /** The storage inside a new vector is its own. */
    ghost method Register()
      requires storage == inline && inline !in heap.owner && forall b <- heap.owner :: heap.owner[b] != this
      modifies heap
      ensures OnHeap() && heap.owner == old(heap.owner)[inline := this] && heap.Others({this}) == old(heap.owner)
    {
      heap.owner := heap.owner[inline := this];
    }

    /** The destructor. */
    method Destroy()
      requires Valid() && OnHeap()
      modifies this, inline, storage, heap
      ensures heap.owner == old(heap.Others({this})) && AllRaw(inline[..])
    {
      DestroyAll();
      FreeCurrentStorage();
      heap.owner := heap.owner - {inline};
    }

    /** All elements destroyed, in place. */
    method DestroyAll()
      requires Valid()
      modifies this`size, this`contents, storage
      ensures Valid() && contents == [] && AllRaw(storage[..])
    {
      DestroyObjects(storage, size);
      size, contents := 0, [];
    }

    /** An empty vector back on its own storage. */
    method FreeCurrentStorage()
      requires Valid() && OnHeap() && contents == []
      modifies this`storage, heap
      ensures Valid() && OnHeap() && storage == inline && heap.Others({this}) == old(heap.Others({this}))
    {
      if UsingHeap() { heap.Free(storage); }
      storage := inline;
    }

    /** Storage for just `count` elements, unless there is storage for just so many. */
    method Refit(count: nat)
      requires Valid() && OnHeap() && contents == []
      modifies this`storage, heap
      ensures Valid() && OnHeap() && count <= storage.Length && Rebuilt(old(storage))
      ensures heap.Others({this}) == old(heap.Others({this}))
    {
      if storage.Length != count {
        FreeCurrentStorage();
        if count > inline.Length {
          var block := heap.Allocate(count, this);
          storage := block;
        }
      }
    }

    method CopyFrom(other: SmallVector<T>)
      requires Valid() && contents == [] && other.Valid() && Apart(other) && other.size <= storage.Length
      modifies this`size, this`contents, storage
      ensures Valid() && contents == other.contents
    {
      CopyConstructObjects(storage, other.storage, other.size);
      size, contents := other.size, other.contents;
    }

    method CopyAssign(other: SmallVector<T>)
      requires Valid() && OnHeap() && other.Valid() && other.OnHeap() && heap == other.heap
               && inline.Length == other.inline.Length
      modifies this, inline, storage, heap
      ensures Valid() && OnHeap() && other.Valid() && other.OnHeap()
              && contents == old(other.contents) == other.contents && Rebuilt(old(storage))
      ensures heap.Others({this}) == old(heap.Others({this}))
    {
      hide Holds;
      if other == this { return; }
      OwnersApart(other);
      DestroyAll();
      Refit(other.size);
      OtherStays(other);
      CopyFrom(other);
    }

    /** A block is stolen if its elements would not fit inside; fewer are moved, and the other keeps its block. */
    method TakeFrom(other: SmallVector<T>)
      requires Valid() && OnHeap() && contents == [] && storage == inline && other.Valid() && other.OnHeap()
               && Apart(other) && heap == other.heap && inline.Length == other.inline.Length
      modifies this`storage, this`size, this`contents, inline, other`storage, other`size, other`contents,
          other.storage, heap
      ensures Valid() && OnHeap() && other.Valid() && other.OnHeap() && contents == old(other.contents)
              && other.contents == []
      ensures other.storage == other.inline || other.storage == old(other.storage)
      ensures heap.Others({this, other}) == old(heap.Others({this, other}))
    {
      if other.size > inline.Length { StealFrom(other); } else { MoveInside(other); }
    }

    method StealFrom(other: SmallVector<T>)
      requires Valid() && contents == [] && storage == inline && other.Valid() && Apart(other) && heap == other.heap
               && other.UsingHeap()
      requires OnHeap() && other.OnHeap() && inline.Length == other.inline.Length
      modifies this`storage, this`size, this`contents, other`storage, other`size, other`contents, heap
      ensures Valid() && other.Valid() && contents == old(other.contents) && other.contents == []
      ensures OnHeap() && other.OnHeap() && other.storage == other.inline
              && heap.Others({this, other}) == old(heap.Others({this, other}))
    {
      storage, size, contents := other.storage, other.size, other.contents;
      other.storage, other.size, other.contents := other.inline, 0, [];
      heap.owner := heap.owner[storage := this];
    }

    method MoveInside(other: SmallVector<T>)
      requires Valid() && contents == [] && storage == inline && other.Valid() && Apart(other) && heap == other.heap
               && other.size <= inline.Length
      modifies this`size, this`contents, inline, other`size, other`contents, other.storage
      ensures Valid() && other.Valid() && contents == old(other.contents) && other.contents == []
    {
      assert inline[..] == Raws(inline.Length);
      hide Holds;
      MoveAll(inline, other.storage, other.size, other.contents);
      size, contents := other.size, other.contents;
      other.size, other.contents := 0, [];
    }

    method MoveAssign(other: SmallVector<T>)
      requires Valid() && OnHeap() && other.Valid() && other.OnHeap() && heap == other.heap
               && inline.Length == other.inline.Length
      modifies this, inline, storage, other, other.inline, other.storage, heap
      ensures Valid() && OnHeap() && other.Valid() && other.OnHeap() && contents == old(other.contents)
      ensures other != this ==>
          other.contents == [] && (other.storage == other.inline || other.storage == old(other.storage))
      ensures heap.Others({this, other}) == old(heap.Others({this, other}))
    {
      hide Holds;
      if other == this { return; }
      OwnersApart(other);
      DestroyAll();
      FreeCurrentStorage();
      OtherStays(other);
      TakeFrom(other);
    }

    /** Through a vector that lives only for the assignment. */
    method Assign(values: seq<T>)
      requires Valid() && OnHeap()
      modifies this, inline, storage, heap
      ensures Valid() && OnHeap() && contents == values && heap.Others({this}) == old(heap.Others({this}))
    {
      hide Holds;
      var temporary := new SmallVector(heap, inline.Length, values);
      StaysBeside(temporary);
      MoveAssign(temporary);
      temporary.Destroy();
    }

    twostate lemma StaysBeside(new other: SmallVector<T>)
      requires old(OnHeap()) && other != this && storage == old(storage) && other.OnHeap() && other.heap == heap
      requires heap.Others({other}) == old(heap.owner)
      ensures OnHeap() && heap.Others({this, other}) == old(heap.Others({this}))
    {
      var now, was := heap.Others({other}), old(heap.owner);
      assert inline in now && storage in now;
      forall b <- heap.owner | heap.owner[b] == this
        ensures b == inline || b == storage { assert b in now && b in was; }
      forall b
        ensures b in heap.Others({this, other}) <==> b in old(heap.Others({this})) { assert b in now <==> b in was; }
    }

    /** No array belongs to both. */
    ghost predicate Apart(other: SmallVector<T>)
      reads this, other
    {
      other != this && inline != other.inline && storage != other.inline && storage != other.storage
          && inline != other.storage
    }

    /** One owner for each array: two vectors on one heap never share any. */
    lemma OwnersApart(other: SmallVector<T>)
      requires OnHeap() && other.OnHeap() && heap == other.heap && other != this
      ensures Apart(other)
    {
    }

    /** What another vector has on the heap it keeps, whatever happens to what is this one's. */
    twostate lemma OtherStays(other: SmallVector<T>)
      requires old(other.OnHeap()) && other != this && other.storage == old(other.storage) && other.heap == heap
      requires heap.Others({this}) == old(heap.Others({this}))
      ensures other.OnHeap() && heap.Others({this, other}) == old(heap.Others({this, other}))
    {
      var now, was := heap.Others({this}), old(heap.Others({this}));
      assert other.inline in was && other.storage in was;
      forall b <- heap.owner | heap.owner[b] == other
        ensures b == other.inline || b == other.storage { assert b in now; }
      forall b
        ensures b in heap.Others({this, other}) <==>
            b in old(heap.Others({this, other})) { assert b in now <==> b in was; }
      forall b <- heap.Others({this, other})
        ensures heap.owner[b] == old(heap.owner[b]) { assert b in now && now[b] == was[b]; }
    }

    /** The storage is the vector's own, its old one, or new. */
    twostate predicate Rebuilt(oldStorage: array<Slot<T>>)
      reads this
    {
      storage == inline || storage == oldStorage || fresh(storage)
    }

    method Reserve(desired: nat)
      requires Valid() && OnHeap()
      modifies this, inline, storage, heap
      ensures Valid() && OnHeap() && contents == old(contents) && size == old(size) && Rebuilt(old(storage))
      ensures storage.Length == if desired > old(storage.Length) then desired else old(storage.Length)
      ensures moves == old(moves) + if desired > old(storage.Length) then size else 0
      ensures heap.Others({this}) == old(heap.Others({this}))
      ensures if desired > old(storage.Length) then AllRaw(old(storage)[..]) else storage == old(storage)
    {
      hide Holds;
      if desired > storage.Length {
        var oldStorage := storage;
        var oldUsesHeap := UsingHeap();
        var block := heap.Allocate(desired, this);
        storage := block;
        MoveAll(storage, oldStorage, size, contents);
        moves := moves + size;
        if oldUsesHeap { heap.Free(oldStorage); }
      }
    }

    method ShrinkToFit()
      requires Valid() && OnHeap()
      modifies this, inline, storage, heap
      ensures Valid() && OnHeap() && contents == old(contents) && Rebuilt(old(storage))
      ensures old(storage != inline) ==> storage.Length == if size > inline.Length then size else inline.Length
      ensures old(storage == inline) ==> storage == inline
      ensures heap.Others({this}) == old(heap.Others({this}))
    {
      hide Holds;
      if UsingHeap() && storage.Length > size {
        var oldStorage := storage;
        if size > inline.Length {
          var block := heap.Allocate(size, this);
          storage := block;
        } else {
          storage := inline;
        }
        MoveAll(storage, oldStorage, size, contents);
        heap.Free(oldStorage);
      }
    }

    /** The argument of `push_back` and `insert` is a reference, which may lead into the vector itself. */
    ghost predicate InRange(arg: Argument<T>)
      reads this
    {
      arg.Element? ==> arg.index < |contents|
    }

    /**
     The argument is copied after the storage was replaced. If it is an element that was moved then, there is
     nothing left to copy, and `ok` is false.
     */
    method PushBack(arg: Argument<T>) returns (ok: bool)
      requires Valid() && OnHeap() && InRange(arg)
      modifies this, inline, storage, heap
      ensures ok <==> arg.Outside? || old(size < storage.Length)
      ensures Valid() && OnHeap() && Rebuilt(old(storage))
      ensures contents == if ok then old(contents) + [Denoted(arg, old(contents))] else old(contents)
      ensures storage.Length == if old(size < storage.Length) then old(storage.Length) else Grown(old(size))
      ensures moves == old(moves) + if old(size < storage.Length) then 0 else old(size)
      ensures heap.Others({this}) == old(heap.Others({this}))
    {
      ghost var known := storage[..size];
      assert known == Objects(contents);
      hide Holds;
      var source := storage;
      if size + 1 > storage.Length { Reserve(Grown(size)); }
      var copied := Look(arg, source);
      if copied.Raw? { return false; }
      Append(copied.value);
      ok := true;
    }

    /** Construction behind the last element, where there is room. */
    method Append(value: T)
      requires Valid() && size < storage.Length
      modifies this`size, this`contents, storage
      ensures Valid() && contents == old(contents) + [value]
    {
      assert storage[..size] == Objects(contents) && storage[size..] == Raws(storage.Length - size);
      PutBehind(storage, size, value, contents);
      size, contents := size + 1, contents + [value];
    }

    /** The storage is replaced by a larger block; the elements behind the position are moved after the copy. */
    method InsertGrowing(at: nat, arg: Argument<T>) returns (copied: Slot<T>)
      requires Valid() && OnHeap() && at <= size == storage.Length && InRange(arg)
      modifies this`storage, inline, storage, heap
      ensures copied == CopiedGrowing(arg, contents, at)
      ensures copied.Object? ==>
          fresh(storage) && storage.Length == Grown(size) && Holds(storage, Inserted(contents, at, copied.value))
      ensures copied.Object? ==>
          OnHeap() && inline[..] == Raws(inline.Length) && heap.Others({this}) == old(heap.Others({this}))
      ensures copied.Raw? ==> fresh(storage) && Halfway(storage[..], old(storage)[..], contents, at)
    {
      assert storage[..] == Objects(contents);
      hide Holds, Inserted, CopiedGrowing, Halfway;
      var oldStorage := storage;
      var oldUsesHeap := UsingHeap();
      var block := heap.Allocate(Grown(size), this);
      storage := block;
      copied := MoveAround(storage, oldStorage, at, arg, contents);
      if copied.Object? && oldUsesHeap { heap.Free(oldStorage); }
    }

    /** Within the storage, the elements behind the position move up before the copy. */
    method InsertInPlace(at: nat, arg: Argument<T>) returns (copied: Slot<T>)
      requires Valid() && at <= size < storage.Length && InRange(arg)
      modifies storage
      ensures copied == CopiedInPlace(arg, contents, at)
      ensures copied.Object? ==> Holds(storage, Inserted(contents, at, copied.value))
      ensures copied.Raw? ==> storage[..] == WithGap(contents, at, storage.Length)
    {
      OpenGap(storage, at, size, contents);
      GapHolds(contents, at, storage.Length, storage[..]);
      copied := Look(arg, storage);
      if copied.Object? { FillGap(storage, at, copied.value, contents); }
    }

    /**
     Insertion before position `at`. When the argument was an element that is gone, there is nothing to copy, and
     the elements are left as they stand then.
     */
    method Insert(at: nat, arg: Argument<T>) returns (copied: Slot<T>)
      requires Valid() && OnHeap() && at <= size && InRange(arg)
      modifies this, inline, storage, heap
      ensures copied == if old(size < storage.Length) then CopiedInPlace(arg, old(contents), at)
          else CopiedGrowing(arg, old(contents), at)
      ensures copied.Object? ==>
          Valid() && OnHeap() && contents == Inserted(old(contents), at, copied.value) && Rebuilt(old(storage))
      ensures copied.Object? ==>
          storage.Length == if old(size < storage.Length) then old(storage.Length) else Grown(old(size))
      ensures copied.Object? ==> heap.Others({this}) == old(heap.Others({this}))
      ensures copied.Raw? ==> size == old(size) && contents == old(contents)
      ensures copied.Raw? ==>
          if old(size < storage.Length) then
            storage == old(storage) && storage[..] == WithGap(contents, at, storage.Length)
          else fresh(storage) && Halfway(storage[..], old(storage)[..], contents, at)
    {
      hide Holds, Halfway, WithGap;
      if size + 1 > storage.Length { copied := InsertGrowing(at, arg); } else { copied := InsertInPlace(at, arg); }
      if copied.Object? { size, contents := size + 1, Inserted(contents, at, copied.value); }
    }
  }

  datatype Argument<T> = Outside(value: T) | Element(index: nat)

  /** What the caller wants copied. */
  function Denoted<T>(arg: Argument<T>, values: seq<T>): T
    requires arg.Element? ==> arg.index < |values|
  {
    if arg.Outside? then arg.value else values[arg.index]
  }

  function Inserted<T>(values: seq<T>, at: nat, value: T): (r: seq<T>)
    requires at <= |values|
    ensures |r| == |values| + 1
  {
    values[..at] + [value] + values[at..]
  }

  /** What is copied when the elements from `at` on have just moved up by one. */
  function CopiedInPlace<T>(arg: Argument<T>, values: seq<T>, at: nat): Slot<T>
    requires arg.Element? ==> arg.index < |values|
  {
    if arg.Outside? then Object(arg.value)
    else if arg.index < at then Object(values[arg.index])
    else if arg.index == at then Raw
    else Object(values[arg.index - 1])
  }

  /** What is copied when the elements before `at` have just left the old storage. */
  function CopiedGrowing<T>(arg: Argument<T>, values: seq<T>, at: nat): Slot<T>
    requires arg.Element? ==> arg.index < |values|
  {
    if arg.Outside? then Object(arg.value) else if arg.index < at then Raw else Object(values[arg.index])
  }

  /** When `insert` inserts what its caller means, if the elements differ from each other. */
  lemma InsertIsRight<T>(arg: Argument<T>, values: seq<T>, at: nat)
    requires (arg.Element? ==> arg.index < |values|) && forall i, j :: 0 <= i < j < |values| ==> values[i] != values[j]
    ensures CopiedInPlace(arg, values, at) == Object(Denoted(arg, values)) <==> arg.Outside? || arg.index < at
    ensures CopiedGrowing(arg, values, at) == Object(Denoted(arg, values)) <==> arg.Outside? || at <= arg.index
  {
  }

  /** What is to be copied, as it is now. */
  method Look<T>(arg: Argument<T>, source: array<Slot<T>>) returns (slot: Slot<T>)
    requires arg.Element? ==> arg.index < source.Length
    ensures slot == if arg.Outside? then Object(arg.value) else source[arg.index]
  {
    if arg.Outside? { slot := Object(arg.value); } else { slot := source[arg.index]; }
  }

  /** Moves the objects of a full array to a larger one, with a copy of the argument among them. */
  method MoveAround<T>(dst: array<Slot<T>>, src: array<Slot<T>>, at: nat, arg: Argument<T>, ghost values: seq<T>)
    returns (copied: Slot<T>)
    requires dst != src && src[..] == Objects(values) && at <= |values| == src.Length < dst.Length
             && dst[..] == Raws(dst.Length)
    requires arg.Element? ==> arg.index < |values|
    modifies dst, src
    ensures copied == CopiedGrowing(arg, values, at)
    ensures copied.Object? ==> Holds(dst, Inserted(values, at, copied.value)) && src[..] == Raws(src.Length)
    ensures copied.Raw? ==> Halfway(dst[..], src[..], values, at)
  {
    MoveFront(dst, src, at, values);
    assert arg.Element? ==> src[arg.index] == if arg.index < at then Raw else Object(values[arg.index]);
    copied := Look(arg, src);
    if copied.Object? {
      PutBehind(dst, at, copied.value, values[..at]);
      MoveTail(dst, src, at, values, copied.value);
    }
  }

  /** The objects before the position are in the larger array, the others still in the old one. */
  ghost predicate Halfway<T>(dst: seq<Slot<T>>, src: seq<Slot<T>>, values: seq<T>, at: nat)
    requires at <= |values|
  {
    && |dst| > at && dst[..at] == Objects(values[..at]) && dst[at..] == Raws(|dst| - at)
    && src == Raws(at) + Objects(values[at..])
  }

  /** The objects before the position, to a larger array. */
  method MoveFront<T>(dst: array<Slot<T>>, src: array<Slot<T>>, at: nat, ghost values: seq<T>)
    requires dst != src && src[..] == Objects(values) && at <= |values| == src.Length < dst.Length
             && dst[..] == Raws(dst.Length)
    modifies dst, src
    ensures dst[..at] == Objects(values[..at]) && dst[at..] == Raws(dst.Length - at)
    ensures src[..] == Raws(at) + Objects(values[at..])
  {
    ghost var n := dst.Length;
    assert src[0..at] == Objects(values[..at]) && src[at..] == Objects(values[at..]);
    assert dst[at..] == Raws(n - at) && dst[0..at] == Raws(at) && dst[..0] == [];
    MoveAndDestroy(dst, 0, src, 0, at);
    assert src[..] == src[..0] + Raws(at) + Objects(values[at..]);
  }

  /** The objects from `at` on, one slot up. */
  method OpenGap<T>(slots: array<Slot<T>>, at: nat, size: nat, ghost values: seq<T>)
    requires at <= size == |values| < slots.Length && Holds(slots, values)
    modifies slots
    ensures slots[..] == WithGap(values, at, slots.Length)
  {
    PartsOf(values, at, slots.Length);
    MoveUpAndDestroy(slots, at, size - at);
  }

  ghost function WithGap<T>(values: seq<T>, at: nat, n: nat): (r: seq<Slot<T>>)
    requires at <= |values| < n
    ensures |r| == n
  {
    Objects(values[..at]) + [Raw] + Objects(values[at..]) + Raws(n - |values| - 1)
  }

  lemma GapHolds<T>(values: seq<T>, at: nat, n: nat, slots: seq<Slot<T>>)
    requires at <= |values| < n && slots == WithGap(values, at, n)
    ensures forall i :: 0 <= i < |values| ==>
              slots[i] == if i < at then Object(values[i]) else if i == at then Raw else Object(values[i - 1])
  {
  }

  /** The value goes into the gap. */
  method FillGap<T>(slots: array<Slot<T>>, at: nat, value: T, ghost values: seq<T>)
    requires at <= |values| < slots.Length && slots[..] == WithGap(values, at, slots.Length)
    modifies slots
    ensures Holds(slots, Inserted(values, at, value))
  {
    ghost var n := slots.Length;
    ghost var below, above, free := Objects(values[..at]), Objects(values[at..]), Raws<T>(n - |values| - 1);
    AroundGap(below, above, free, slots[..]);
    ConstructObjects(slots, at, [value]);
    assert slots[..] == below + Objects([value]) + (above + free);
    Regroup(below, Objects([value]), above, free);
    JoinGap(values, at, value, n);
  }

  method PutBehind<T>(dst: array<Slot<T>>, at: nat, value: T, ghost values: seq<T>)
    requires at < dst.Length && |values| == at && dst[..at] == Objects(values) && dst[at..] == Raws(dst.Length - at)
    modifies dst
    ensures dst[..at + 1] == Objects(values + [value]) && dst[at + 1..] == Raws(dst.Length - at - 1)
  {
    assert dst[at..at + 1][0] == dst[at..][0];
    ConstructObjects(dst, at, [value]);
  }

  method MoveTail<T>(dst: array<Slot<T>>, src: array<Slot<T>>, at: nat, ghost values: seq<T>, ghost value: T)
    requires dst != src && at <= |values| == src.Length < dst.Length
    requires dst[..at + 1] == Objects(values[..at] + [value]) && dst[at + 1..] == Raws(dst.Length - at - 1)
    requires src[..] == Raws(at) + Objects(values[at..])
    modifies dst, src
    ensures Holds(dst, Inserted(values, at, value)) && AllRaw(src[..])
  {
    ghost var n, m := dst.Length, src.Length;
    assert src[at..m] == src[at..] && src[m..] == [];
    assert dst[at + 1..at + 1 + (m - at)] == Raws(m - at);
    assert dst[at + 1 + (m - at)..] == Raws(n - m - 1);
    MoveAndDestroy(dst, at + 1, src, at, src.Length - at);
    assert dst[..] == Objects(values[..at] + [value]) + Objects(values[at..]) + Raws(n - m - 1);
    assert values[..at] + [value] + values[at..] == (values[..at] + [value]) + values[at..];
  }

  lemma PartsOf<T>(values: seq<T>, at: nat, n: nat)
    requires at <= |values| < n
    ensures var slots := Objects(values) + Raws(n - |values|);
            && slots[..at] == Objects(values[..at]) && slots[at..|values|] == Objects(values[at..])
            && slots[|values|] == Raw
            && slots[|values| + 1..] == Raws(n - |values| - 1)
  {
  }

  lemma AroundGap<T>(below: seq<Slot<T>>, above: seq<Slot<T>>, free: seq<Slot<T>>, slots: seq<Slot<T>>)
    requires slots == below + [Raw] + above + free
    ensures var at := |below|; slots[..at] == below && slots[at..at + 1] == [Raw] && slots[at + 1..] == above + free
  {
  }

  lemma Regroup<T>(below: seq<Slot<T>>, gap: seq<Slot<T>>, above: seq<Slot<T>>, free: seq<Slot<T>>)
    ensures below + gap + (above + free) == below + gap + above + free
  {
  }

  lemma JoinGap<T>(values: seq<T>, at: nat, value: T, n: nat)
    requires at <= |values| < n
    ensures Objects(values[..at]) + Objects([value]) + Objects(values[at..]) + Raws(n - |values| - 1)
            == Objects(Inserted(values, at, value)) + Raws(n - |values| - 1)
  {
  }

  /** The first slots hold the values and the others nothing. */
  ghost predicate Holds<T>(slots: array<Slot<T>>, values: seq<T>)
    reads slots
  {
    |values| <= slots.Length && slots[..] == Objects(values) + Raws(slots.Length - |values|)
  }

  // ---------------------------------------------------------------------------------------------
  // The cost of growing
  // ---------------------------------------------------------------------------------------------

  /** The capacity after `n` elements were pushed onto an empty vector, and the moves that took. */
  function Pushes(inlineCount: nat, n: nat): (r: (nat, nat)) {
    if n == 0 then (inlineCount, 0)
    else
      var (capacity, moves) := Pushes(inlineCount, n - 1);
      if n - 1 < capacity then (capacity, moves) else (Grown(n - 1), moves + n - 1)
  }

  /** Whatever the inline size, growing moves fewer than three objects for each one pushed. */
  lemma {:induction false} GrowingIsLinear(inlineCount: nat, n: nat)
    ensures var (capacity, moves) := Pushes(inlineCount, n); n <= capacity && moves <= 2 * capacity && moves <= 3 * n
  {
    if n > 0 { GrowingIsLinear(inlineCount, n - 1); }
  }

  method PushMany<T>(v: SmallVector<T>, values: seq<T>)
    requires v.Valid() && v.OnHeap() && v.contents == [] && v.storage == v.inline && v.moves == 0
    modifies v, v.inline, v.heap
    ensures v.Valid() && v.OnHeap() && v.contents == values && v.moves <= 3 * |values|
    ensures (v.storage.Length, v.moves) == Pushes(v.inline.Length, |values|)
  {
    hide Holds;
    for i := 0 to |values|
      invariant v.Valid() && v.OnHeap() && v.contents == values[..i] && (v.storage == v.inline || fresh(v.storage))
      invariant (v.storage.Length, v.moves) == Pushes(v.inline.Length, i)
    {
      var ok := v.PushBack(Outside(values[i]));
    }
    GrowingIsLinear(v.inline.Length, |values|);
  }
}

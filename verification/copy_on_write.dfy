/**
 `CopyOnWrite` of `CopyOnWrite.h`: handles that share an object until one of them writes. A ghost
 world keeps the handles that exist and the objects that are allocated: in every run the counts
 are right, and every handle behaves as a value of its own.
 */
module CopyOnWrites {
  import opened Wrappers

  class ObjectAndCount<T> {
    var value: T
    var count: int

    constructor (value: T)
      ensures this.value == value && count == 0
    {
      this.value, count := value, 0;
    }
  }

  ghost function Holders<T(!new)>(handles: set<CopyOnWrite<T>>, o: ObjectAndCount<T>): set<CopyOnWrite<T>>
    reads handles
  {
    set h | h in handles && h.data == o
  }

  lemma OneLess<A>(s: set<A>, x: A)
    requires x in s
    ensures |s - {x}| == |s| - 1
  {
    assert s == (s - {x}) + {x};
  }

  lemma OnlyOne<A>(s: set<A>, x: A)
    requires x in s && |s| == 1
    ensures s == {x}
  {
    OneLess(s, x);
    assert s - {x} == {};
  }

  class World<T(!new)> {
    ghost var handles: set<CopyOnWrite<T>>
    ghost var live: set<ObjectAndCount<T>>

    constructor ()
      ensures Valid() && handles == {} && live == {}
    {
      handles, live := {}, {};
    }

    /** Every count is the number of handles to the object, and just the objects with handles are allocated. */
    ghost predicate Valid()
      reads this, handles, live
    {
      && (forall h <- handles :: h.data == null || h.data in live)
      && (forall o <- live :: o.count == |Holders(handles, o)| && o.count > 0)
    }
  }

  /** The handle has no object, or one that is counted for it. */
  class CopyOnWrite<T(!new)> {
    var data: ObjectAndCount?<T>

    /** What reading through the handle gives. */
    ghost function Value(): Option<T>
      reads this, data
    {
      if data == null then None else Some(data.value)
    }

    constructor Empty(world: World<T>)
      requires world.Valid()
      modifies world
      ensures world.Valid() && world.handles == old(world.handles) + {this} && world.live == old(world.live)
              && data == null
    {
      data := null;
      new;
      world.handles := world.handles + {this};
      forall o <- world.live ensures Holders(world.handles, o) == old(Holders(world.handles, o)) { }
    }

    /** Gives the handle's object up; the last handle deletes it. */
    method ClearMyObject(world: World<T>)
      requires world.Valid() && this in world.handles
      modifies world`live, this, world.live
      ensures world.Valid() && data == null && world.live <= old(world.live)
      ensures forall o <- old(world.live) ::
          o.value == old(o.value) && (o !in world.live <==> old(Holders(world.handles, o)) == {this})
    {
      if data != null {
        ghost var o := data;
        ghost var holders := Holders(world.handles, o);
        OneLess(holders, this);
        data.count := data.count - 1;
        data := null;
        assert Holders(world.handles, o) == holders - {this} && o.count == |holders - {this}|;
        assert forall p <- world.live ::
            Holders(world.handles, p) == if p == o then old(Holders(world.handles, p)) - {this}
                else old(Holders(world.handles, p));
        if o.count == 0 {
          assert Holders(world.handles, o) == {};
          assert forall h <- world.handles :: h.data == o ==> h in Holders(world.handles, o);
          label Emptied:
          world.live := world.live - {o};
          assert forall p <- world.live :: Holders(world.handles, p) == old@Emptied(Holders(world.handles, p));
        }
      }
    }

    /** Takes part in an object, which may be none. */
    method AcquireObject(world: World<T>, o: ObjectAndCount?<T>)
      requires this in world.handles && data == null && CountedBut(world, o)
      modifies this, o
      ensures world.Valid() && data == o && (o != null ==> o.value == old(o.value))
    {
      data := o;
      if o != null { o.count := o.count + 1; }
      assert o != null ==> Holders(world.handles, o) == old(Holders(world.handles, o)) + {this};
      forall p <- world.live | p != o ensures Holders(world.handles, p) == old(Holders(world.handles, p)) { }
    }

    /** The world is as it should be, but that `o` may be new and have no handle yet. */
    ghost predicate CountedBut(world: World<T>, o: ObjectAndCount?<T>)
      reads world, world.handles, world.live
    {
      && (forall h <- world.handles :: h.data == null || h.data in world.live)
      && (forall p <- world.live :: p.count == |Holders(world.handles, p)| && (p != o ==> p.count > 0))
      && (o != null ==> o in world.live)
    }

    constructor (world: World<T>, value: T)
      requires world.Valid()
      modifies world
      ensures world.Valid() && world.handles == old(world.handles) + {this} && fresh(data) && data.value == value
    {
      data := null;
      new;
      world.handles := world.handles + {this};
      var o := new ObjectAndCount(value);
      world.live := world.live + {o};
      assert forall p <- world.live ::
          Holders(world.handles, p) == if p == o then {} else old(Holders(world.handles, p));
      AcquireObject(world, o);
    }

    constructor Copy(world: World<T>, other: CopyOnWrite<T>)
      requires world.Valid() && other in world.handles
      modifies world, other.data
      ensures world.Valid() && world.handles == old(world.handles) + {this} && data == other.data
              && world.live == old(world.live)
      ensures data != null ==> data.value == old(other.data.value)
    {
      data := null;
      new;
      world.handles := world.handles + {this};
      assert forall p <- world.live :: Holders(world.handles, p) == old(Holders(world.handles, p));
      AcquireObject(world, other.data);
    }

    method Assign(world: World<T>, other: CopyOnWrite<T>)
      requires world.Valid() && this in world.handles && other in world.handles
      modifies world`live, this, world.live
      ensures world.Valid() && data == old(other.data) == other.data && (data != null ==> data in old(world.live))
      ensures forall o <- old(world.live) :: o.value == old(o.value)
    {
      if this == other { return; }
      if data != other.data {
        ClearMyObject(world);
        assert other.data != null ==> other.data in world.live;
        AcquireObject(world, other.data);
      }
    }

    /** The destructor. */
    method Destroy(world: World<T>)
      requires world.Valid() && this in world.handles
      modifies world, this, world.live
      ensures world.Valid() && world.handles == old(world.handles) - {this} && world.live <= old(world.live)
      ensures forall o <- old(world.live) ::
          o.value == old(o.value) && (o !in world.live <==> old(Holders(world.handles, o)) == {this})
    {
      ClearMyObject(world);
      label Cleared:
      world.handles := world.handles - {this};
      assert forall o <- world.live :: Holders(world.handles, o) == old@Cleared(Holders(world.handles, o));
    }

    /** The object to write to, which no other handle has. */
    method Mut(world: World<T>) returns (o: ObjectAndCount?<T>)
      requires world.Valid() && this in world.handles
      modifies world`live, this, world.live
      ensures world.Valid() && o == data && (o == null <==> old(data) == null)
      ensures o != null ==> o in world.live && Holders(world.handles, o) == {this} && o.value == old(data.value)
      ensures forall p <- old(world.live) :: p in world.live && p.value == old(p.value)
      ensures o != null ==>
          (o == old(data) || fresh(o)) && (o == old(data) <==> old(Holders(world.handles, data)) == {this})
    {
      if data == null { return null; }
      if data.count != 1 {
        ghost var was := data;
        OneLess(Holders(world.handles, was), this);
        data.count := data.count - 1;
        data := new ObjectAndCount(data.value);
        data.count := data.count + 1;
        world.live := world.live + {data};
        assert Holders(world.handles, data) == {this};
        assert Holders(world.handles, was) == old(Holders(world.handles, was)) - {this};
        forall p <- old(world.live) | p != was ensures Holders(world.handles, p) == old(Holders(world.handles, p)) { }
      } else {
        OnlyOne(Holders(world.handles, data), this);
      }
      o := data;
    }

    /** A write through the handle is seen through no other. */
    method Write(world: World<T>, value: T)
      requires world.Valid() && this in world.handles && data != null
      modifies world`live, this, world.live
      ensures world.Valid() && Value() == Some(value)
      ensures forall h <- world.handles :: h != this ==> h.Value() == old(h.Value())
    {
      var o := Mut(world);
      assert forall h <- world.handles :: h != this && h.data == o ==> h in Holders(world.handles, o);
      WriteKept(world, o, value);
    }

    /**
     A write through the pointer that `mut` gave, which may have been kept since: it is seen through every handle
     that has the object now. So it stays this handle's own affair exactly while no other handle has taken a share.
     */
    method WriteKept(world: World<T>, o: ObjectAndCount<T>, value: T)
      requires world.Valid() && o in world.live
      modifies o`value
      ensures world.Valid() && o.value == value
      ensures forall h <- world.handles :: h.Value() == if h.data == o then Some(value) else old(h.Value())
      ensures old(o.value) != value ==>
                ((forall h <- world.handles :: h != this ==> h.Value() == old(h.Value())) <==>
                    Holders(world.handles, o) == {this})
    {
      ghost var holders := Holders(world.handles, o);
      SomeHolder(world, o);
      o.value := value;
      assert forall p <- world.live :: Holders(world.handles, p) == old(Holders(world.handles, p));
      assert forall h <- world.handles :: h in holders <==> h.data == o;
      assert holders == {this} <==> forall h <- world.handles :: h != this ==> h !in holders by {
        if forall h <- world.handles :: h != this ==> h !in holders {
          forall h <- holders ensures h == this { }
        }
      }
    }

    lemma SomeHolder(world: World<T>, o: ObjectAndCount<T>)
      requires world.Valid() && o in world.live
      ensures Holders(world.handles, o) != {}
    {
    }

    /** Assignment gives the other handle's value, and no handle but this sees a change. */
    method AssignValue(world: World<T>, other: CopyOnWrite<T>)
      requires world.Valid() && this in world.handles && other in world.handles
      modifies world`live, this, world.live
      ensures world.Valid() && Value() == old(other.Value())
      ensures forall h <- world.handles :: h != this ==> h.Value() == old(h.Value())
    {
      Assign(world, other);
      assert forall h <- world.handles :: h != this ==> h.data == null || h.data in world.live;
    }
  }
}

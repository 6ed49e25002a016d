/**
 The shared_binary object itself, run by one thread: hand-written counting with handles that
 may be the same object or share a block. Deleting a block is recorded, not performed.
 */
module SharedBinary {
  import opened Wire

  class Impl {
    const data: seq<Byte>
    var ref: nat
    ghost var deleted: bool

    constructor (data: seq<Byte>)
      ensures this.data == data && ref == 1 && !deleted
    {
      this.data := data;
      ref := 1;
      deleted := false;
    }
  }

  /** The handles among hs that share a block. */
  ghost function Users(hs: set<SharedBinary>, i: Impl): set<SharedBinary>
    reads hs
  {
    set h | h in hs && h.impl == i
  }

  ghost predicate BlockOk(hs: set<SharedBinary>, i: Impl)
    reads hs, i
  {
    !i.deleted && i.ref == |Users(hs, i)|
  }

  /** hs are all handles there are: every block they reach is alive and counts them. */
  ghost predicate World(hs: set<SharedBinary>)
    reads hs, set h | h in hs && h.impl != null :: h.impl
  {
    forall h :: h in hs && h.impl != null ==> BlockOk(hs, h.impl)
  }

  lemma SwapSize<T>(a: set<T>, x: T, y: T)
    requires x in a && y !in a
    ensures |a - {x} + {y}| == |a|
  {
  }

  class SharedBinary {
    var impl: Impl?

    constructor ()
      ensures impl == null
    {
      impl := null;
    }

    /** A handle on a new block that holds a copy of the data. */
    constructor FromData(data: seq<Byte>, ghost hs: set<SharedBinary>)
      requires World(hs)
      ensures Data() == Some(data) && fresh(impl) && impl.ref == 1
      ensures World(hs + {this})
    {
      impl := new Impl(data);
      new;
      assert Users(hs + {this}, impl) == {this};
      forall h | h in hs && h.impl != null
        ensures BlockOk(hs + {this}, h.impl)
      {
        assert old(BlockOk(hs, h.impl)) && Users(hs + {this}, h.impl) == old(Users(hs, h.impl));
      }
    }

    /** Construction as a whole: a null pointer makes it throw, and there is no handle. */
    static method Make(data: Option<seq<Byte>>, ghost hs: set<SharedBinary>) returns (b: SharedBinary?)
      requires World(hs)
      ensures b == null <==> data == None
      ensures b != null ==> fresh(b) && b.Data() == data && fresh(b.impl) && b.impl.ref == 1 && World(hs + {b})
      ensures World(hs)
    {
      if data.None? {
        b := null;
      } else {
        b := new SharedBinary.FromData(data.value, hs);
      }
    }

    /** The bytes, or None for an empty handle. */
    function Data(): Option<seq<Byte>>
      reads this, impl
    {
      if impl == null then None else Some(impl.data)
    }

    method Reset(ghost hs: set<SharedBinary>)
      requires World(hs) && this in hs
      modifies this, impl
      ensures World(hs) && impl == null
      ensures old(impl) != null ==>
        && old(impl).ref == old(impl.ref) - 1
        && (old(impl).deleted <==> forall h :: h in hs ==> h.impl != old(impl))
    {
      if impl != null {
        ghost var i := impl;
        ghost var before := Users(hs, i);
        assert BlockOk(hs, i) && this in before;
        impl.ref := impl.ref - 1;
        if impl.ref == 0 {
          impl.deleted := true;
        }
        impl := null;
        assert Users(hs, i) == before - {this};
        assert i.ref == |Users(hs, i)|;
        forall h | h in hs && h.impl != null
          ensures BlockOk(hs, h.impl)
        {
          if h.impl == i {
            assert h in Users(hs, i);
          } else {
            assert old(BlockOk(hs, h.impl)) && Users(hs, h.impl) == old(Users(hs, h.impl));
          }
        }
        assert i.ref == 0 <==> Users(hs, i) == {};
        assert forall h :: h in hs && h.impl == i ==> h in Users(hs, i);
      }
    }

    /** The body shared by copy construction and copy assignment: take the pointer, then count. */
    method Share(src: SharedBinary, ghost hs: set<SharedBinary>)
      requires World(hs) && this in hs && src in hs && impl == null
      modifies this, src.impl
      ensures World(hs) && impl == old(src.impl) && src.impl == old(src.impl)
      ensures impl != null ==> impl.ref == old(src.impl.ref) + 1
    {
      impl := src.impl;
      if impl != null {
        ghost var i := impl;
        assert old(BlockOk(hs, i));
        impl.ref := impl.ref + 1;
        assert Users(hs, i) == old(Users(hs, i)) + {this};
        forall h | h in hs && h.impl != null
          ensures BlockOk(hs, h.impl)
        {
          if h.impl != i {
            assert old(BlockOk(hs, h.impl)) && Users(hs, h.impl) == old(Users(hs, h.impl));
          }
        }
      }
    }

    /** Copy assignment; assigning a handle to itself does nothing. */
    method Assign(src: SharedBinary, ghost hs: set<SharedBinary>)
      requires World(hs) && this in hs && src in hs
      modifies this, impl, src.impl
      ensures World(hs) && impl == old(src.impl) && src.impl == old(src.impl)
      ensures old(impl) == old(src.impl) != null ==> impl.ref == old(impl.ref)
      ensures old(impl) != null ==> (old(impl).deleted <==> forall h :: h in hs ==> h.impl != old(impl))
    {
      if this == src {
        return;
      }
      Reset(hs);
      Share(src, hs);
    }

    /** The body shared by move construction and move assignment: take the pointer, leave null. */
    method Take(src: SharedBinary, ghost hs: set<SharedBinary>)
      requires World(hs) && this in hs && src in hs && impl == null
      modifies this, src
      ensures World(hs) && src.impl == null
      ensures impl == if this == src then null else old(src.impl)
    {
      var taken := src.impl;
      src.impl := null;
      if taken == null {
        return;
      }
      ghost var users := old(Users(hs, taken));
      assert old(BlockOk(hs, taken)) && this !in users && src in users;
      impl := taken;
      SwapSize(users, src, this);
      assert Users(hs, taken) == users - {src} + {this};
      forall h | h in hs && h.impl != null && h.impl != taken
        ensures BlockOk(hs, h.impl)
      {
        assert old(BlockOk(hs, h.impl)) && Users(hs, h.impl) == old(Users(hs, h.impl));
      }
    }

    /** Move assignment; from another handle it transfers the count, from itself it resets. */
    method MoveAssign(src: SharedBinary, ghost hs: set<SharedBinary>)
      requires World(hs) && this in hs && src in hs
      modifies this, src, impl
      ensures World(hs) && src.impl == null
      ensures impl == if this == src then null else old(src.impl)
      ensures old(impl) != null ==> (old(impl).deleted <==> forall h :: h in hs ==> h.impl != old(impl))
    {
      Reset(hs);
      Take(src, hs);
    }

    method Equals(other: SharedBinary) returns (same: bool)
      ensures same <==> Data() == other.Data()
    {
      if impl == null {
        return other.impl == null;
      }
      if other.impl == null {
        return false;
      }
      return impl.data == other.impl.data;
    }
  }
}

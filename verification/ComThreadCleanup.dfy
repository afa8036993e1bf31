/** The garbage handling of one COM thread in its imperative form: the
    reference that owns a native pointer, and the loops that release it. */
module ComThreadCleanup {

  class NativePointerPhantomReference {
    var ptr: int
    ghost var released: nat  // history: calls of Native.release on the pointer

    ghost predicate Valid()
      reads this
    {
      released == if ptr == 0 then 1 else 0
    }

    /** A wrapper refuses a null pointer, so a reference starts out owning one. */
    constructor (ptr: int)
      requires ptr != 0
      ensures Valid() && this.ptr == ptr
    {
      this.ptr := ptr;
      released := 0;
    }

    method ReleaseNative()
      requires Valid()
      modifies this
      ensures Valid() && ptr == 0
      ensures released == old(released) + if old(ptr) == 0 then 0 else 1
    {
      if ptr != 0 {
        released := released + 1;
        ptr := 0;
      }
    }
  }

  class ComThreadMulti {
    var liveComObjects: set<NativePointerPhantomReference>
    var collectableObjects: seq<NativePointerPhantomReference>

    ghost predicate Valid()
      reads this, liveComObjects, collectableObjects
    {
      && (forall r | r in liveComObjects :: r.Valid())
      && (forall r | r in collectableObjects :: r.Valid())
    }

    constructor ()
      ensures Valid() && liveComObjects == {} && collectableObjects == []
    {
      liveComObjects, collectableObjects := {}, [];
    }

    method AddLiveObject(r: NativePointerPhantomReference)
      requires Valid() && r.Valid()
      modifies this`liveComObjects
      ensures Valid() && liveComObjects == old(liveComObjects) + {r}
    {
      liveComObjects := liveComObjects + {r};
    }

    /** The constructor of `Wrapper`: a null pointer is refused, any other is owned
        by a new reference registered with the thread. */
    method Wrap(ptr: int) returns (r: NativePointerPhantomReference?)
      requires Valid()
      modifies this`liveComObjects
      ensures Valid() && (r == null <==> ptr == 0)
      ensures r == null ==> liveComObjects == old(liveComObjects)
      ensures r != null ==>
                && fresh(r) && r.Valid() && r.ptr == ptr && r.released == 0
                && liveComObjects == old(liveComObjects) + {r}
    {
      if ptr == 0 {
        return null;
      }
      r := new NativePointerPhantomReference(ptr);
      AddLiveObject(r);
    }

    /** Empties the reference queue: exactly the queued references are
        unregistered, and each of them no longer owns a pointer. */
    method CollectGarbage()
      requires Valid()
      modifies this, collectableObjects
      ensures Valid() && collectableObjects == []
      ensures forall r :: r in liveComObjects <==> r in old(liveComObjects) && r !in old(collectableObjects)
      ensures forall r | r in old(collectableObjects) :: r.Valid() && r.ptr == 0
      ensures forall r | r in liveComObjects :: r.ptr == old(r.ptr) && r.released == old(r.released)
    {
      ghost var queue := collectableObjects;
      ghost var done: nat := 0;
      while collectableObjects != []
        invariant done <= |queue| && collectableObjects == queue[done..]
        invariant Valid() && forall r | r in queue :: r.Valid()
        invariant forall r :: r in liveComObjects <==> r in old(liveComObjects) && r !in queue[..done]
        invariant forall r | r in queue[..done] :: r.ptr == 0
        invariant forall r | r in old(liveComObjects) && r !in queue[..done] ::
                    r.ptr == old(r.ptr) && r.released == old(r.released)
        decreases |collectableObjects|
      {
        var toCollect := collectableObjects[0];
        collectableObjects := collectableObjects[1..];
        liveComObjects := liveComObjects - {toCollect};
        toCollect.ReleaseNative();
        assert queue[..done + 1] == queue[..done] + [toCollect];
        done := done + 1;
      }
      assert queue[..done] == queue;
    }

    /** The end of `run0`: nothing this thread ever registered still owns a pointer. */
    method ReleaseEverything()
      requires Valid()
      modifies this, liveComObjects, collectableObjects
      ensures liveComObjects == {} && collectableObjects == []
      ensures forall r | r in old(liveComObjects) || r in old(collectableObjects) ::
                r.Valid() && r.ptr == 0 && r.released == 1
    {
      ghost var queue := collectableObjects;
      CollectGarbage();
      ghost var live := liveComObjects;
      var rest := liveComObjects;
      while rest != {}
        invariant rest <= live && liveComObjects == live && collectableObjects == []
        invariant forall r | r in live || r in queue :: r.Valid()
        invariant forall r | r in live - rest || r in queue :: r.ptr == 0
        decreases rest
      {
        var r :| r in rest;
        r.ReleaseNative();
        rest := rest - {r};
      }
      liveComObjects := {};
    }
  }
}

/** The owning handles (`ByteRef`, `BufferRef`, `BufioReaderRef`, `BufioWriterRef`, the image refs):
    a wrapped object, the pool it came from, and an open/closed flag whose first `Release` hands
    the object back to that pool. One generic handle stands for all of them. */
module Refs {
  import opened Slices

  /** `refInit` and `refClosed`. */
  datatype State = Open | Closed

  /** One `Release` call from state s: the state after it, and whether it calls the pool's Put
      (the compare-and-swap from refInit to refClosed succeeds only once). */
  function ReleaseStep(s: State): (State, bool)
  {
    match s
    case Open => (Closed, true)
    case Closed => (Closed, false)
  }

  /** n consecutive `Release` calls from state s: the final state and how many Puts they made. */
  function ReleaseMany(s: State, n: nat): (State, nat)
    decreases n
  {
    if n == 0 then (s, 0)
    else
      var (s1, put) := ReleaseStep(s);
      var (s2, puts) := ReleaseMany(s1, n - 1);
      (s2, puts + if put then 1 else 0)
  }

  /** However many times an open handle is released (at least once), it ends closed and the pool
      receives exactly one Put. */
  lemma {:induction false} ReleaseExactlyOnce(n: nat)
    requires n >= 1
    ensures ReleaseMany(Open, n) == (Closed, 1)
  {
    ReleasesAfterClose(n - 1);
  }

  /** A closed handle stays closed and never touches its pool again. */
  lemma {:induction false} ReleasesAfterClose(n: nat)
    ensures ReleaseMany(Closed, n) == (Closed, 0)
    decreases n
  {
    if n > 0 {
      ReleasesAfterClose(n - 1);
    }
  }

  class Ref<T> {
    /** The wrapped object (`B`, `Buf`, `pix`): what the accessors return and what Release hands back. */
    const Obj: T
    /** The pool the handle was created for; Release forwards to its Put. */
    const Pool: object
    var state: State
    /** Every object handed to Pool.Put by this handle so far. */
    ghost var Forwarded: seq<T>

    ghost predicate Valid()
      reads this
    {
      Forwarded == if state == Closed then [Obj] else []
    }

    /** `newByteRef` and its siblings: the handle starts open. */
    constructor (obj: T, pool: object)
      ensures Valid() && state == Open && Forwarded == []
      ensures Obj == obj && Pool == pool
    {
      Obj := obj;
      Pool := pool;
      state := Open;
      Forwarded := [];
    }

    /** `isClosed`: true exactly when the object has been handed to the pool, once. */
    function IsClosed(): (c: bool)
      requires Valid()
      reads this
      ensures c <==> Forwarded == [Obj]
    {
      state == Closed
    }

    /** `Bytes`, `Buffer`, `Reader`, `Writer`: the wrapped object, which is also the one object a
        released handle has handed to the pool. */
    function Value(): (v: T)
      requires Valid()
      reads this
      ensures state == Closed ==> Forwarded == [v]
    {
      Obj
    }

    /** `Release`: the first call closes the handle and returns the object the caller must pass
        to Pool.Put; every later call returns None. The pools' ReleaseRef methods make that Put. */
    method Release() returns (forward: Option<T>)
      requires Valid()
      modifies this
      ensures Valid() && state == Closed && IsClosed()
      ensures (state, forward.Some?) == ReleaseStep(old(state))
      ensures forward.Some? ==> forward.value == Obj
      ensures Forwarded == old(Forwarded) + (if forward.Some? then [Obj] else [])
      ensures |Forwarded| == 1
    {
      if state == Open {
        state := Closed;
        Forwarded := Forwarded + [Obj];
        forward := Some(Obj);
      } else {
        forward := None;
      }
    }
  }

  /** `ImageRGBARef`, `ImageNRGBARef`, `ImageYCbCrRef`: an image descriptor over a backing pix
      slice. The descriptor is what `Image` returns and what the routers adjust; Release hands
      back the pix slice, not the descriptor's plane views. */
  class ImageRef<I> {
    var Img: I
    const Handle: Ref<Bytes>

    constructor (img: I, pix: Bytes, pool: object)
      ensures Img == img && fresh(Handle)
      ensures Handle.Valid() && Handle.state == Open && Handle.Obj == pix && Handle.Pool == pool
    {
      Img := img;
      Handle := new Ref(pix, pool);
    }

    /** `Image` */
    function Image(): I
      reads this
    {
      Img
    }
  }
}

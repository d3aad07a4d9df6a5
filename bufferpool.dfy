/** `BufferPool`: a bounded queue of `bytes.Buffer`s, each reset to length 0 and holding at least
    bufSize bytes of capacity. */
module Bufferpool {
  import opened Slices
  import Options
  import opened Refs

  /** A `*bytes.Buffer` as the pool sees it: `Len()` and `Cap()`. */
  datatype Buffer = Buffer(len: nat, cap: nat)

  /** `bytes.NewBuffer(make([]byte, 0, n))` */
  function NewBuffer(n: nat): Buffer
  {
    Buffer(0, n)
  }

  /** What `Buffer.Grow(n)` promises: the content is kept, at least n more bytes then fit
      without another allocation, and nothing changes when they already fit. How much a
      reallocation actually provides is left to Go's runtime (a nil buffer asked for at most 64
      bytes gets 64, and a larger allocation is rounded up to a size class), so any capacity
      meeting the promise is allowed. */
  predicate Grown(b: Buffer, n: nat, r: Buffer)
  {
    r.len == b.len && r.cap >= b.len + n && r.cap >= b.cap && (b.len + n <= b.cap ==> r == b)
  }

  /** `Buffer.Reset()`: empties the buffer and keeps its storage. */
  function Reset(b: Buffer): (r: Buffer)
    ensures r.len == 0 && r.cap == b.cap
  {
    Buffer(0, b.cap)
  }

  /** Put's first test: a buffer at or above maxBufSize is discarded (note `<=`: equality
      already rejects, unlike BytePool). */
  predicate Admissible(maxBufSize: int, data: Buffer)
  {
    !(maxBufSize <= data.cap)
  }

  /** The buffer Put enqueues (and that the caller's pointer then sees): grown by bufSize when
      its capacity is below bufSize, then reset. */
  predicate Prepared(bufSize: nat, data: Buffer, r: Buffer)
  {
    r.len == 0 &&
    (data.cap >= bufSize ==> r.cap == data.cap) &&
    (data.cap < bufSize ==> r.cap >= data.len + bufSize)
  }

  /** A prepared buffer is empty and has room for bufSize bytes, so it may join the queue, and
      it never has less capacity than the buffer given. */
  lemma PreparedBounds(bufSize: nat, data: Buffer, r: Buffer)
    requires Prepared(bufSize, data, r)
    ensures r.len == 0 && r.cap >= bufSize && r.cap >= data.cap
  {
  }

  /** Grow then Reset is exactly what Prepared allows, for every capacity Grow may pick. */
  lemma GrownThenResetPrepared(bufSize: nat, data: Buffer, g: Buffer)
    requires data.cap < bufSize && Grown(data, bufSize, g)
    ensures Prepared(bufSize, data, Reset(g))
  {
  }

  /** `after` is `before` with one buffer prepared from data added at the back. */
  predicate Enqueued(before: seq<Buffer>, after: seq<Buffer>, bufSize: nat, data: Buffer)
  {
    |after| == |before| + 1 && after[..|before|] == before && Prepared(bufSize, data, after[|before|])
  }

  class BufferPool {
    const capacity: nat
    const bufSize: nat
    const maxBufSize: int
    /** The buffers waiting in `b.pool`, oldest first. */
    var items: seq<Buffer>

    ghost predicate Valid()
      reads this
    {
      |items| <= capacity &&
      forall i :: 0 <= i < |items| ==> items[i].len == 0 && items[i].cap >= bufSize
    }

    /** `NewBufferPool(poolSize, bufSize)`. With preload set, the constructor only calls the
        calibration hook, which is a no-op: the pool starts empty either way. */
    constructor (poolSize: nat, bufSize: nat, computedMax: int)
      ensures Valid() && items == []
      ensures capacity == poolSize && this.bufSize == bufSize
      ensures maxBufSize == Options.EffectiveMaxBufSize(computedMax, bufSize)
    {
      capacity := poolSize;
      this.bufSize := bufSize;
      maxBufSize := if computedMax < 1 then bufSize else computedMax;
      items := [];
    }

    /** `Get`: the oldest queued buffer as it is, or a fresh empty buffer of capacity bufSize. */
    method Get() returns (data: Buffer)
      requires Valid()
      modifies this
      ensures Valid()
      ensures data.len == 0 && data.cap >= bufSize
      ensures old(items) == [] ==> data == NewBuffer(bufSize) && items == []
      ensures old(items) != [] ==> data == old(items)[0] && items == old(items)[1..]
    {
      if items != [] {
        data := items[0];
        items := items[1..];
      } else {
        data := NewBuffer(bufSize);
      }
    }

    /** `GetRef`: Get, wrapped in a fresh open handle bound to this pool. */
    method GetRef() returns (ref: Ref<Buffer>)
      requires Valid()
      modifies this
      ensures Valid() && fresh(ref) && ref.Valid() && ref.state == Open && ref.Pool == this
      ensures ref.Obj.len == 0 && ref.Obj.cap >= bufSize
      ensures old(items) == [] ==> ref.Obj == NewBuffer(bufSize) && items == []
      ensures old(items) != [] ==> ref.Obj == old(items)[0] && items == old(items)[1..]
    {
      var data := Get();
      ref := new Ref(data, this);
    }

    /** `Put`: discard when `maxBufSize <= Cap()`; otherwise grow a small buffer by bufSize,
        reset it and try to enqueue it. `after` is the state the caller's buffer is left in. */
    method Put(data: Buffer) returns (ok: bool, after: Buffer)
      requires Valid()
      modifies this
      ensures Valid()
      ensures ok <==> Admissible(maxBufSize, data) && |old(items)| < capacity
      ensures Admissible(maxBufSize, data) ==> Prepared(bufSize, data, after)
      ensures !Admissible(maxBufSize, data) ==> after == data
      ensures items == if ok then old(items) + [after] else old(items)
    {
      if maxBufSize <= data.cap {
        return false, data;
      }
      after := data;
      if data.cap < bufSize {
        assert Grown(data, bufSize, Buffer(data.len, data.len + bufSize));
        after :| Grown(data, bufSize, after);
        assert Grown(data, bufSize, after);
      }
      after := Reset(after);
      if |items| < capacity {
        items := items + [after];
        ok := true;
      } else {
        ok := false;
      }
    }

    /** `BufferRef.Release` on a handle of this pool: the first call forwards the buffer to Put. */
    method ReleaseRef(ref: Ref<Buffer>) returns (ok: bool)
      requires Valid() && ref.Valid() && ref.Pool == this
      modifies this, ref
      ensures Valid() && ref.Valid() && ref.state == Closed
      ensures old(ref.state) == Closed ==> !ok && items == old(items)
      ensures old(ref.state) == Open ==>
                (ok <==> Admissible(maxBufSize, ref.Obj) && |old(items)| < capacity) &&
                (ok ==> Enqueued(old(items), items, bufSize, ref.Obj)) && (!ok ==> items == old(items))
    {
      var forward := ref.Release();
      ok := false;
      if forward.Some? {
        var after;
        ok, after := Put(forward.value);
      }
    }

    /** `Len` */
    function Len(): (n: nat)
      requires Valid()
      reads this
      ensures n <= Cap()
    {
      |items|
    }

    /** `Cap` */
    function Cap(): nat
    {
      capacity
    }
  }
}

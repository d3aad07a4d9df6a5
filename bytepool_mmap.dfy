/** `MmapBytePool`: a bounded queue of byte slices carved from anonymous memory mappings, all of
    capacity alignSize, the buffer size rounded up to the 8-byte grid. */
module BytepoolMmap {
  import opened Slices
  import opened Chan
  import opened Refs

  /** `DefaultMmapAlignment` */
  const DefaultMmapAlignment: nat := 8

  /** `mmapAlign(size, align)`: `((size + align) >> 3) << 3`. The shifts always round to a
      multiple of 8, whatever `align` is; on non-negative values they are `/ 8` and `* 8`. */
  function MmapAlign(size: nat, align: nat): (r: nat)
    ensures r % 8 == 0 && r <= size + align < r + 8
  {
    ((size + align) / 8) * 8
  }

  /** `defaultMmapAlign(size)`: a multiple of 8 strictly above the buffer size and at most 8
      above it. A size that is already a multiple of 8 still gains a full 8 bytes. */
  function DefaultMmapAlign(size: nat): (r: nat)
    ensures r % 8 == 0 && size < r <= size + 8 && r >= 8
  {
    MmapAlign(size, DefaultMmapAlignment)
  }

  /** Worked values: 12 rounds to 16, 7 to 8, and 16 to 24. */
  lemma DefaultMmapAlignExamples()
    ensures DefaultMmapAlign(12) == 16 && DefaultMmapAlign(7) == 8 && DefaultMmapAlign(16) == 24
  {
  }

  /** The bytes of n chunks of `size` bytes laid end to end. */
  function Span(size: nat, n: nat): nat
  {
    if n == 0 then 0 else Span(size, n - 1) + size
  }

  /** n chunks of `size` bytes take `size * n` bytes, the length preload maps. */
  lemma {:induction false} SpanIsProduct(size: nat, n: nat)
    ensures Span(size, n) == size * n
  {
    if n > 0 {
      SpanIsProduct(size, n - 1);
    }
  }

  class MmapBytePool {
    const capacity: nat
    const bufSize: nat
    const alignSize: nat
    /** The slices waiting in `b.pool`, oldest first. */
    var items: seq<Bytes>
    /** Every region handed to `unix.Munmap` so far. */
    ghost var Unmapped: seq<Bytes>

    ghost predicate Valid()
      reads this
    {
      alignSize == DefaultMmapAlign(bufSize) && bufSize < alignSize &&
      |items| <= capacity &&
      forall i :: 0 <= i < |items| ==> items[i] == Bytes(bufSize, alignSize)
    }

    /** `NewMmapBytePool(poolSize, bufSize)` */
    constructor (poolSize: nat, bufSize: nat, preload: bool, preloadSize: nat)
      ensures Valid()
      ensures capacity == poolSize && this.bufSize == bufSize && alignSize == DefaultMmapAlign(bufSize)
      ensures items == if preload then Repeat(Bytes(bufSize, alignSize), Min(preloadSize, poolSize)) else []
    {
      capacity := poolSize;
      this.bufSize := bufSize;
      alignSize := DefaultMmapAlign(bufSize);
      items := [];
      Unmapped := [];
      new;
      if preload {
        Preload(preloadSize);
        SendAllRepeat([], capacity, Bytes(bufSize, alignSize), preloadSize);
      }
    }

    /** `preload`: map one region of `alignSize * preloadSize` bytes and Put it chunk by chunk,
        each chunk `buffers[:bufSize:alignSize]`; a chunk the full queue rejects is unmapped. */
    method Preload(preloadSize: nat)
      requires Valid()
      modifies this
      ensures Valid()
      ensures capacity == 0 ==> items == old(items) && Unmapped == old(Unmapped)
      ensures 0 < capacity ==>
                items == old(items) + Repeat(Bytes(bufSize, alignSize), Min(preloadSize, capacity - |old(items)|)) &&
                Unmapped == old(Unmapped) + Repeat(Bytes(bufSize, alignSize), preloadSize - Min(preloadSize, capacity - |old(items)|))
    {
      if 0 < capacity {
        var chunk := Bytes(bufSize, alignSize);
        var room := capacity - |items|;
        var buffers := Make(alignSize * preloadSize);
        SpanIsProduct(alignSize, preloadSize);
        var i: nat := 0;
        while 0 < buffers.len
          invariant i <= preloadSize && Valid()
          invariant buffers == Make(Span(alignSize, preloadSize - i))
          invariant items == old(items) + Repeat(chunk, Min(i, room))
          invariant Unmapped == old(Unmapped) + Repeat(chunk, i - Min(i, room))
          decreases buffers.len
        {
          var ok := Put(Reslice3(buffers, bufSize, alignSize));
          buffers := Advance(buffers, alignSize);
          i := i + 1;
        }
      }
    }

    /** `Get`: the oldest queued slice re-sliced to bufSize, or a fresh mapping (or its heap
        fallback) of alignSize bytes re-sliced to bufSize. */
    method Get() returns (data: Bytes)
      requires Valid()
      modifies this`items
      ensures Valid()
      ensures data == Bytes(bufSize, alignSize)
      ensures items == if old(items) == [] then [] else old(items)[1..]
    {
      if items != [] {
        data := Reslice(items[0], bufSize);
        items := items[1..];
      } else {
        var buf := Make(alignSize);
        data := Reslice(buf, bufSize);
      }
    }

    /** `GetRef`: Get, wrapped in a fresh open handle bound to this pool. */
    method GetRef() returns (ref: Ref<Bytes>)
      requires Valid()
      modifies this`items
      ensures Valid() && fresh(ref) && ref.Valid() && ref.state == Open && ref.Pool == this
      ensures ref.Obj == Bytes(bufSize, alignSize)
      ensures items == if old(items) == [] then [] else old(items)[1..]
    {
      var data := Get();
      ref := new Ref(data, this);
    }

    /** `Put`: keep only a slice of capacity exactly alignSize; a full queue unmaps it, a wrong
        capacity simply drops it. */
    method Put(data: Bytes) returns (ok: bool)
      requires Valid()
      modifies this
      ensures Valid()
      ensures ok <==> data.cap == alignSize && |old(items)| < capacity
      ensures items == if ok then old(items) + [Bytes(bufSize, alignSize)] else old(items)
      ensures Unmapped == if data.cap == alignSize && !ok then old(Unmapped) + [data] else old(Unmapped)
    {
      if data.cap != alignSize {
        return false;
      }
      if |items| < capacity {
        items := items + [Reslice(data, bufSize)];
        ok := true;
      } else {
        Unmapped := Unmapped + [data];
        ok := false;
      }
    }

    /** `Put(Get())`: a slice taken from the pool always goes back in, unless the pool has no
        capacity at all, in which case the fresh mapping is unmapped again. */
    method GetPutRoundTrip() returns (ok: bool)
      requires Valid()
      modifies this
      ensures Valid()
      ensures ok <==> 0 < capacity
      ensures old(items) != [] ==> items == old(items)[1..] + [Bytes(bufSize, alignSize)]
      ensures old(items) == [] ==> items == if ok then [Bytes(bufSize, alignSize)] else []
      ensures Unmapped == if ok then old(Unmapped) else old(Unmapped) + [Bytes(bufSize, alignSize)]
    {
      var data := Get();
      ok := Put(data);
    }

    /** `ByteRef.Release` on a handle of this pool. */
    method ReleaseRef(ref: Ref<Bytes>) returns (ok: bool)
      requires Valid() && ref.Valid() && ref.Pool == this
      modifies this, ref
      ensures Valid() && ref.Valid() && ref.state == Closed
      ensures old(ref.state) == Closed ==> !ok && items == old(items) && Unmapped == old(Unmapped)
      ensures old(ref.state) == Open ==>
                (ok <==> ref.Obj.cap == alignSize && |old(items)| < capacity) &&
                items == (if ok then old(items) + [Bytes(bufSize, alignSize)] else old(items)) &&
                Unmapped == if ref.Obj.cap == alignSize && !ok then old(Unmapped) + [ref.Obj] else old(Unmapped)
    {
      var forward := ref.Release();
      ok := false;
      if forward.Some? {
        ok := Put(forward.value);
      }
    }

    /** `Len` */
    function Len(): (n: nat)
      requires Valid()
      reads this
      ensures n <= Cap()
    {
      |items|
    }

    /** `Cap` */
    function Cap(): nat
    {
      capacity
    }
  }
}

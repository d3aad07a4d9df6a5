/** `BytePool`: a bounded queue of byte slices that all have length and capacity `bufSize`. */
module Bytepool {
  import opened Slices
  import opened Chan
  import Options
  import opened Refs

  /** Put's admission rule: discard a slice whose capacity exceeds maxBufSize or falls short of
      bufSize. */
  predicate Admissible(bufSize: nat, maxBufSize: int, data: Bytes)
  {
    !(maxBufSize < data.cap) && !(data.cap < bufSize)
  }

  /** What an admitted slice looks like once it is queued: `data[:bufSize:bufSize]`. */
  function Normalize(bufSize: nat, data: Bytes): Bytes
    requires bufSize <= data.cap
  {
    Reslice3(data, bufSize, bufSize)
  }

  /** Every slice Put admits is queued in the shape of a fresh `make([]byte, bufSize)`, so the
      queue only ever hands out slices that Put would admit again, unchanged. */
  lemma NormalizeReadmitted(bufSize: nat, maxBufSize: int, data: Bytes)
    requires Admissible(bufSize, maxBufSize, data)
    ensures Normalize(bufSize, data) == Make(bufSize)
    ensures Admissible(bufSize, maxBufSize, Normalize(bufSize, data))
    ensures Normalize(bufSize, Normalize(bufSize, data)) == Normalize(bufSize, data)
  {
  }

  /** With the default options every fresh slice passes Put's admission test, so preloading
      queues min(preloadSize, poolSize) slices whatever bufSize is. */
  lemma DefaultsAdmitFresh(bufSize: nat)
    ensures Admissible(bufSize, Options.EffectiveMaxBufSize(Options.DefaultMaxBufSize(bufSize), bufSize), Make(bufSize))
  {
    Options.DefaultEffectiveMax(bufSize);
  }

  /** A slice is admitted exactly when its capacity lies in [bufSize, maxBufSize]. */
  lemma AdmissibleRange(bufSize: nat, maxBufSize: int, data: Bytes)
    ensures Admissible(bufSize, maxBufSize, data) <==> bufSize <= data.cap <= maxBufSize
  {
  }

  class BytePool {
    /** `cap(b.pool)`, fixed when the channel is made. */
    const capacity: nat
    const bufSize: nat
    const maxBufSize: int
    /** The slices waiting in `b.pool`, oldest first. */
    var items: seq<Bytes>

    ghost predicate Valid()
      reads this
    {
      |items| <= capacity &&
      forall i :: 0 <= i < |items| ==> items[i] == Bytes(bufSize, bufSize)
    }

    /** `NewBytePool(poolSize, bufSize)`: `computedMax` is `int(maxBufSizeFactor * bufSize)`,
        `preloadSize` is `int(cap * preloadRate)`, used only when `preload` is set. */
    constructor (poolSize: nat, bufSize: nat, computedMax: int, preload: bool, preloadSize: nat)
      ensures Valid()
      ensures capacity == poolSize && this.bufSize == bufSize
      ensures maxBufSize == Options.EffectiveMaxBufSize(computedMax, bufSize)
      ensures items == if preload && Admissible(bufSize, maxBufSize, Make(bufSize))
                       then Repeat(Make(bufSize), Min(preloadSize, poolSize))
                       else []
    {
      capacity := poolSize;
      this.bufSize := bufSize;
      maxBufSize := if computedMax < 1 then bufSize else computedMax;
      items := [];
      new;
      if preload {
        Preload(preloadSize);
        SendAllRepeat([], capacity, Make(bufSize), preloadSize);
      }
    }

    /** `preload`: Put `preloadSize` fresh slices of length bufSize, one after the other. */
    method Preload(preloadSize: nat)
      requires Valid()
      modifies this
      ensures Valid()
      ensures items == if 0 < capacity && Admissible(bufSize, maxBufSize, Make(bufSize))
                       then SendAll(old(items), capacity, Repeat(Make(bufSize), preloadSize))
                       else old(items)
    {
      if 0 < capacity {
        var i := 0;
        while i < preloadSize
          invariant 0 <= i <= preloadSize && Valid()
          invariant items == if Admissible(bufSize, maxBufSize, Make(bufSize))
                             then SendAll(old(items), capacity, Repeat(Make(bufSize), i))
                             else old(items)
        {
          var _ := Put(Make(bufSize));
          SendAllSnoc(old(items), capacity, Repeat(Make(bufSize), i), Make(bufSize));
          i := i + 1;
        }
      }
    }

    /** `Get`: the oldest queued slice re-sliced to bufSize, or a fresh `make([]byte, bufSize)`. */
    method Get() returns (data: Bytes)
      requires Valid()
      modifies this
      ensures Valid()
      ensures data == Bytes(bufSize, bufSize)
      ensures items == if old(items) == [] then [] else old(items)[1..]
    {
      if items != [] {
        data := Reslice(items[0], bufSize);
        items := items[1..];
      } else {
        data := Make(bufSize);
      }
    }

    /** `GetRef`: Get, wrapped in a fresh open handle bound to this pool. */
    method GetRef() returns (ref: Ref<Bytes>)
      requires Valid()
      modifies this
      ensures Valid() && fresh(ref) && ref.Valid() && ref.state == Open
      ensures ref.Obj == Bytes(bufSize, bufSize) && ref.Pool == this
      ensures items == if old(items) == [] then [] else old(items)[1..]
    {
      var data := Get();
      ref := new Ref(data, this);
    }

    /** `Put`: reject by capacity, then try to enqueue `data[:bufSize:bufSize]`. */
    method Put(data: Bytes) returns (ok: bool)
      requires Valid()
      modifies this
      ensures Valid()
      ensures ok <==> Admissible(bufSize, maxBufSize, data) && |old(items)| < capacity
      ensures items == if ok then old(items) + [Bytes(bufSize, bufSize)] else old(items)
    {
      if maxBufSize < data.cap {
        return false;
      }
      if data.cap < bufSize {
        return false;
      }
      if |items| < capacity {
        items := items + [Normalize(bufSize, data)];
        ok := true;
      } else {
        ok := false;
      }
    }

    /** `ByteRef.Release` on a handle of this pool: the first call forwards the slice to Put. */
    method ReleaseRef(ref: Ref<Bytes>) returns (ok: bool)
      requires Valid() && ref.Valid() && ref.Pool == this
      modifies this, ref
      ensures Valid() && ref.Valid() && ref.state == Closed
      ensures old(ref.state) == Closed ==> !ok && items == old(items)
      ensures old(ref.state) == Open ==>
                (ok <==> Admissible(bufSize, maxBufSize, ref.Obj) && |old(items)| < capacity) &&
                items == if ok then old(items) + [Bytes(bufSize, bufSize)] else old(items)
    {
      var forward := ref.Release();
      ok := false;
      if forward.Some? {
        ok := Put(forward.value);
      }
    }

    /** `Len` */
    function Len(): (n: nat)
      requires Valid()
      reads this
      ensures n <= Cap()
    {
      |items|
    }

    /** `Cap` */
    function Cap(): nat
    {
      capacity
    }
  }
}

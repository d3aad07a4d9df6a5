/** `MultiBytePool`: byte-pool buckets sorted by bufSize; a request goes to the first bucket
    whose bufSize is large enough, and anything larger is allocated fresh. */
module Mbytepool {
  import opened Slices
  import opened Sorting
  import opened Buckets
  import opened Refs
  import Options
  import Bytepool
  import opened Chan

  /** `bytepoolTuple`, as built by `MultiBytePoolSize(poolSize, bufSize)`. */
  datatype BytepoolTuple = BytepoolTuple(poolSize: nat, bufSize: nat)

  /** The key the constructor's `less` callback compares. */
  function BufKey(t: BytepoolTuple): Key
  {
    Key(t.bufSize, 0)
  }

  /** The bucket sizes `find` scans, in bucket order. */
  function BufSizes(tuples: seq<BytepoolTuple>): (r: seq<int>)
    ensures |r| == |tuples|
    ensures forall i :: 0 <= i < |tuples| ==> r[i] == tuples[i].bufSize
  {
    seq(|tuples|, i requires 0 <= i < |tuples| => tuples[i].bufSize)
  }

  /** Tuples sorted by their key have ascending bucket sizes. */
  lemma SortedBufSizes(tuples: seq<BytepoolTuple>)
    requires SortedBy(tuples, BufKey)
    ensures forall i, j :: 0 <= i < j < |tuples| ==> BufSizes(tuples)[i] <= BufSizes(tuples)[j]
  {
    forall i, j | 0 <= i < j < |tuples|
      ensures BufSizes(tuples)[i] <= BufSizes(tuples)[j]
    {
      assert Le(BufKey(tuples[i]), BufKey(tuples[j]));
    }
  }

  /** A slice too large for every bucket, handed back to the last bucket, passes that bucket's
      admission test exactly when its capacity is at most the bucket's maxBufSize. */
  lemma OversizeRelease(tuples: seq<BytepoolTuple>, size: nat, maxBufSize: int)
    requires |tuples| > 0 && FirstFit(BufSizes(tuples), size).None?
    ensures Bytepool.Admissible(tuples[|tuples| - 1].bufSize, maxBufSize, Make(size)) <==> size <= maxBufSize
  {
    assert BufSizes(tuples)[|tuples| - 1] < size;
  }

  /** What `NewBytePool` leaves in a bucket: with preload set, min(preloadSize(poolSize), poolSize)
      fresh slices when a fresh slice passes Put's test, and nothing otherwise. */
  ghost function Preloaded(p: Bytepool.BytePool, preload: bool, preloadSize: nat -> nat): seq<Bytes>
    reads p
  {
    if preload && Bytepool.Admissible(p.bufSize, p.maxBufSize, Make(p.bufSize))
    then Repeat(Make(p.bufSize), Min(preloadSize(p.capacity), p.capacity))
    else []
  }

  class MultiBytePool {
    const tuples: seq<BytepoolTuple>
    const pools: seq<Bytepool.BytePool>

    ghost predicate Valid()
      reads this, pools
    {
      |pools| == |tuples| &&
      SortedBy(tuples, BufKey) &&
      (forall i, j :: 0 <= i < j < |pools| ==> pools[i] != pools[j]) &&
      forall i :: 0 <= i < |pools| ==>
        pools[i].Valid() && pools[i].bufSize == tuples[i].bufSize && pools[i].capacity == tuples[i].poolSize
    }

    /** `NewMultiBytePool(tuples, funcs...)`: sorts the caller's tuples in place by bufSize and
        builds one BytePool per tuple. `computedMax(b)` stands for `int(maxBufSizeFactor * b)` and
        `preloadSize(c)` for `int(c * preloadRate)`, both taken from the options. */
    constructor (tuples: array<BytepoolTuple>, computedMax: nat -> int, preload: bool, preloadSize: nat -> nat)
      modifies tuples
      ensures Valid()
      ensures this.tuples == tuples[..]
      ensures multiset(tuples[..]) == multiset(old(tuples[..]))
      ensures forall i :: 0 <= i < |pools| ==>
                fresh(pools[i]) &&
                pools[i].maxBufSize == Options.EffectiveMaxBufSize(computedMax(this.tuples[i].bufSize), this.tuples[i].bufSize) &&
                pools[i].items == Preloaded(pools[i], preload, preloadSize)
    {
      SortBy(tuples, BufKey);
      ghost var sorted := tuples[..];
      var ps: seq<Bytepool.BytePool> := [];
      var i := 0;
      while i < tuples.Length
        invariant 0 <= i <= tuples.Length && |ps| == i
        invariant tuples[..] == sorted
        invariant forall j, l :: 0 <= j < l < i ==> ps[j] != ps[l]
        invariant forall j :: 0 <= j < i ==>
                    fresh(ps[j]) && ps[j].Valid() &&
                    ps[j].bufSize == tuples[j].bufSize && ps[j].capacity == tuples[j].poolSize &&
                    ps[j].maxBufSize == Options.EffectiveMaxBufSize(computedMax(tuples[j].bufSize), tuples[j].bufSize) &&
                    ps[j].items == Preloaded(ps[j], preload, preloadSize)
      {
        var t := tuples[i];
        var p := new Bytepool.BytePool(t.poolSize, t.bufSize, computedMax(t.bufSize), preload, preloadSize(t.poolSize));
        ps := ps + [p];
        i := i + 1;
      }
      this.tuples := tuples[..];
      pools := ps;
    }

    /** `find(size)`: the first bucket whose bufSize is at least size. */
    method Find(size: int) returns (r: Option<nat>)
      requires Valid()
      ensures r == FirstFit(BufSizes(tuples), size)
      ensures r.Some? ==> r.value < |pools|
    {
      r := Scan(BufSizes(tuples), size);
    }

    /** `Get(size)`: a slice of length size, from the first fitting bucket (capacity its
        bufSize) or, when none fits, freshly allocated. Only the chosen bucket changes. */
    method Get(size: nat) returns (data: Bytes)
      requires Valid()
      modifies pools
      ensures Valid()
      ensures data.len == size
      ensures FirstFit(BufSizes(tuples), size).None? ==> data == Make(size)
      ensures forall k :: FirstFit(BufSizes(tuples), size) == Some(k) ==>
                data.cap == tuples[k].bufSize &&
                pools[k].items == if old(pools[k].items) == [] then [] else old(pools[k].items)[1..]
      ensures forall i :: 0 <= i < |pools| && FirstFit(BufSizes(tuples), size) != Some(i) ==>
                pools[i].items == old(pools[i].items)
    {
      var k := Find(size);
      if k.Some? {
        var bucket := pools[k.value];
        var d := bucket.Get();
        data := Reslice(d, size);
        forall i | 0 <= i < |pools| && i != k.value
          ensures pools[i].items == old(pools[i].items) && pools[i].Valid()
        {
          assert pools[i] != bucket;
        }
      } else {
        data := Make(size);
      }
    }

    /** `GetRef(size)`: like Get, wrapped in a handle bound to the chosen bucket, or to the last
        bucket when none fits (so the router needs at least one bucket). */
    method GetRef(size: nat) returns (ref: Ref<Bytes>)
      requires Valid() && |tuples| > 0
      modifies pools
      ensures Valid() && fresh(ref) && ref.Valid() && ref.state == Open
      ensures ref.Obj.len == size
      ensures FirstFit(BufSizes(tuples), size).None? ==>
                ref.Obj == Make(size) && ref.Pool == pools[|pools| - 1]
      ensures forall k :: FirstFit(BufSizes(tuples), size) == Some(k) ==>
                ref.Obj.cap == tuples[k].bufSize && ref.Pool == pools[k] &&
                pools[k].items == if old(pools[k].items) == [] then [] else old(pools[k].items)[1..]
      ensures forall i :: 0 <= i < |pools| && FirstFit(BufSizes(tuples), size) != Some(i) ==>
                pools[i].items == old(pools[i].items)
    {
      var k := Find(size);
      if k.Some? {
        var bucket := pools[k.value];
        var d := bucket.Get();
        ref := new Ref(Reslice(d, size), bucket);
        forall i | 0 <= i < |pools| && i != k.value
          ensures pools[i].items == old(pools[i].items) && pools[i].Valid()
        {
          assert pools[i] != bucket;
        }
      } else {
        ref := new Ref(Make(size), pools[|pools| - 1]);
      }
    }

    /** `Put(data)`: routed by capacity to the first bucket that fits, whose own Put decides;
        a slice no bucket fits is discarded. */
    method Put(data: Bytes) returns (ok: bool)
      requires Valid()
      modifies pools
      ensures Valid()
      ensures FirstFit(BufSizes(tuples), data.cap).None? ==> !ok
      ensures forall k :: FirstFit(BufSizes(tuples), data.cap) == Some(k) ==>
                (ok <==> Bytepool.Admissible(pools[k].bufSize, pools[k].maxBufSize, data) &&
                         |old(pools[k].items)| < pools[k].capacity) &&
                pools[k].items == if ok then old(pools[k].items) + [Bytes(pools[k].bufSize, pools[k].bufSize)]
                                  else old(pools[k].items)
      ensures forall i :: 0 <= i < |pools| && FirstFit(BufSizes(tuples), data.cap) != Some(i) ==>
                pools[i].items == old(pools[i].items)
    {
      var k := Find(data.cap);
      if k.Some? {
        var bucket := pools[k.value];
        ok := bucket.Put(data);
        forall i | 0 <= i < |pools| && i != k.value
          ensures pools[i].items == old(pools[i].items) && pools[i].Valid()
        {
          assert pools[i] != bucket;
        }
      } else {
        ok := false;
      }
    }
  }
}

/** `MultiMmapBytePool`: mmap-backed byte-pool buckets, one per distinct bufSize, ordered by
    their aligned capacity; a request goes to the first bucket whose alignSize is large enough. */
module MbytepoolMmap {
  import opened Slices
  import opened Sorting
  import opened Buckets
  import opened Refs
  import BytepoolMmap
  import opened Chan

  /** `mmapBytepoolTuple`, as appended by `MultiMmapBytePoolSize(poolSize, bufSize)`. */
  datatype MmapBytepoolTuple = MmapBytepoolTuple(poolSize: nat, bufSize: nat)

  /** The de-duplication key: `uniq[t.bufSize]`. */
  function TupleBufSize(t: MmapBytepoolTuple): nat
  {
    t.bufSize
  }

  /** A bucket's bufSize, which tells buckets built from de-duplicated tuples apart. */
  function PoolBufSize(p: BytepoolMmap.MmapBytePool): nat
  {
    p.bufSize
  }

  /** The key the constructor's `less` callback compares: `pools[a].alignSize`. */
  function AlignKey(p: BytepoolMmap.MmapBytePool): Key
  {
    Key(p.alignSize, 0)
  }

  /** The aligned sizes `find` scans, in bucket order. */
  function AlignSizes(pools: seq<BytepoolMmap.MmapBytePool>): (r: seq<int>)
    ensures |r| == |pools|
    ensures forall i :: 0 <= i < |pools| ==> r[i] == pools[i].alignSize
  {
    seq(|pools|, i requires 0 <= i < |pools| => pools[i].alignSize)
  }

  /** A slice too large for every bucket cannot have the last bucket's aligned capacity, so
      that bucket's Put (and a release of a handle bound to it) always refuses it. */
  lemma OversizeNeverAdmitted(pools: seq<BytepoolMmap.MmapBytePool>, size: nat)
    requires |pools| > 0 && FirstFit(AlignSizes(pools), size).None?
    ensures Make(size).cap != pools[|pools| - 1].alignSize
    ensures forall i :: 0 <= i < |pools| ==> pools[i].alignSize < size
  {
    assert AlignSizes(pools)[|pools| - 1] < size;
  }

  /** The buckets for bufSizes 7, 16 and 24 have aligned sizes 8, 24 and 32. A request for 8
      bytes goes to the bufSize-7 bucket, 9 and 16 to the bufSize-16 bucket, and 1024 nowhere. */
  lemma WorkedAlignRouting(pools: seq<BytepoolMmap.MmapBytePool>)
    requires |pools| == 3 && forall i :: 0 <= i < 3 ==> pools[i].Valid()
    requires pools[0].bufSize == 7 && pools[1].bufSize == 16 && pools[2].bufSize == 24
    ensures AlignSizes(pools) == [8, 24, 32]
    ensures FirstFit(AlignSizes(pools), 1) == Some(0) && FirstFit(AlignSizes(pools), 8) == Some(0)
    ensures FirstFit(AlignSizes(pools), 9) == Some(1) && FirstFit(AlignSizes(pools), 16) == Some(1)
    ensures FirstFit(AlignSizes(pools), 1024).None?
  {
    assert BytepoolMmap.DefaultMmapAlign(7) == 8;
    assert BytepoolMmap.DefaultMmapAlign(16) == 24;
    assert BytepoolMmap.DefaultMmapAlign(24) == 32;
    var sizes := AlignSizes(pools);
    FirstFitUnique(sizes, 1, 0);
    FirstFitUnique(sizes, 8, 0);
    FirstFitUnique(sizes, 9, 1);
    FirstFitUnique(sizes, 16, 1);
  }

  /** What `NewMmapBytePool` leaves in a bucket: with preload set, min(preloadSize(poolSize),
      poolSize) chunks of length bufSize and capacity alignSize, and nothing otherwise. */
  ghost function Preloaded(p: BytepoolMmap.MmapBytePool, preload: bool, preloadSize: nat -> nat): seq<Bytes>
    reads p
  {
    if preload then Repeat(Bytes(p.bufSize, p.alignSize), Min(preloadSize(p.capacity), p.capacity)) else []
  }

  /** The `pools[i] = NewMmapBytePool(t.poolSize, t.bufSize, poolFuncs...)` loop: one new,
      distinct MmapBytePool per tuple, in tuple order. */
  method BuildPools(tuples: seq<MmapBytepoolTuple>, preload: bool, preloadSize: nat -> nat)
    returns (ps: seq<BytepoolMmap.MmapBytePool>)
    ensures |ps| == |tuples|
    ensures forall j, l :: 0 <= j < l < |ps| ==> ps[j] != ps[l]
    ensures forall j :: 0 <= j < |ps| ==>
              fresh(ps[j]) && ps[j].Valid() &&
              ps[j].bufSize == tuples[j].bufSize && ps[j].capacity == tuples[j].poolSize &&
              ps[j].items == Preloaded(ps[j], preload, preloadSize)
  {
    ps := [];
    var i := 0;
    while i < |tuples|
      invariant 0 <= i <= |tuples| && |ps| == i
      invariant forall j, l :: 0 <= j < l < i ==> ps[j] != ps[l]
      invariant forall j :: 0 <= j < i ==>
                  fresh(ps[j]) && ps[j].Valid() &&
                  ps[j].bufSize == tuples[j].bufSize && ps[j].capacity == tuples[j].poolSize &&
                  ps[j].items == Preloaded(ps[j], preload, preloadSize)
    {
      var t := tuples[i];
      var p := new BytepoolMmap.MmapBytePool(t.poolSize, t.bufSize, preload, preloadSize(t.poolSize));
      ps := ps + [p];
      i := i + 1;
    }
  }

  /** Buckets built from the de-duplicated tuples, reordered, still have pairwise distinct
      bufSizes (so they are distinct objects), each built from the first tuple given for it, and
      every bufSize given still has its bucket. */
  lemma SortedPools(given: seq<MmapBytepoolTuple>, u: seq<MmapBytepoolTuple>,
                    built: seq<BytepoolMmap.MmapBytePool>, sorted: seq<BytepoolMmap.MmapBytePool>)
    requires DistinctKeys(u, TupleBufSize)
    requires forall i :: 0 <= i < |u| ==>
               TupleBufSize(u[i]) in KeepFirst(given, TupleBufSize) && u[i] == KeepFirst(given, TupleBufSize)[TupleBufSize(u[i])]
    requires |u| == |KeepFirst(given, TupleBufSize)|
    requires |built| == |u|
    requires forall j :: 0 <= j < |built| ==> built[j].bufSize == u[j].bufSize && built[j].capacity == u[j].poolSize
    requires multiset(sorted) == multiset(built)
    ensures |sorted| == |u|
    ensures forall i, j :: 0 <= i < j < |sorted| ==> sorted[i].bufSize != sorted[j].bufSize
    ensures forall i, j :: 0 <= i < j < |sorted| ==> sorted[i] != sorted[j]
    ensures forall i :: 0 <= i < |sorted| ==>
              sorted[i].bufSize in KeepFirst(given, TupleBufSize) &&
              sorted[i].capacity == KeepFirst(given, TupleBufSize)[sorted[i].bufSize].poolSize
    ensures forall t :: t in given ==> exists i :: 0 <= i < |sorted| && sorted[i].bufSize == t.bufSize
  {
    assert |sorted| == |multiset(sorted)| == |multiset(built)| == |built|;
    assert DistinctKeys(built, PoolBufSize) by {
      forall i, j | 0 <= i < j < |built|
        ensures PoolBufSize(built[i]) != PoolBufSize(built[j])
      {
        assert TupleBufSize(u[i]) != TupleBufSize(u[j]);
      }
    }
    DistinctKeysPermutation(sorted, built, PoolBufSize);
    forall i, j | 0 <= i < j < |sorted|
      ensures sorted[i].bufSize != sorted[j].bufSize && sorted[i] != sorted[j]
    {
      assert PoolBufSize(sorted[i]) != PoolBufSize(sorted[j]);
    }
    forall i | 0 <= i < |sorted|
      ensures sorted[i].bufSize in KeepFirst(given, TupleBufSize) &&
              sorted[i].capacity == KeepFirst(given, TupleBufSize)[sorted[i].bufSize].poolSize
    {
      assert sorted[i] in multiset(built);
      var j :| 0 <= j < |built| && built[j] == sorted[i];
    }
    KeepFirstKeys(given, TupleBufSize);
    DistinctCover(u, KeepFirst(given, TupleBufSize).Keys, TupleBufSize);
    forall t | t in given
      ensures exists i :: 0 <= i < |sorted| && sorted[i].bufSize == t.bufSize
    {
      var k :| 0 <= k < |given| && given[k] == t;
      assert TupleBufSize(given[k]) in KeepFirst(given, TupleBufSize);
      assert t.bufSize in KeepFirst(given, TupleBufSize).Keys;
      var i :| 0 <= i < |u| && TupleBufSize(u[i]) == t.bufSize;
      assert built[i] in multiset(sorted);
      var j :| 0 <= j < |sorted| && sorted[j] == built[i];
    }
  }

  /** `sort.Slice(pools, less)`: the buckets, in an array sorted in place by alignSize. */
  method SortByAlign(built: seq<BytepoolMmap.MmapBytePool>) returns (sorted: seq<BytepoolMmap.MmapBytePool>)
    ensures multiset(sorted) == multiset(built)
    ensures SortedBy(sorted, AlignKey)
  {
    var a := new BytepoolMmap.MmapBytePool[|built|](i requires 0 <= i < |built| => built[i]);
    assert a[..] == built;
    SortBy(a, AlignKey);
    sorted := a[..];
  }

  class MultiMmapBytePool {
    const pools: seq<BytepoolMmap.MmapBytePool>

    ghost predicate Valid()
      reads this, pools
    {
      SortedBy(pools, AlignKey) &&
      (forall i, j :: 0 <= i < j < |pools| ==> pools[i] != pools[j]) &&
      forall i :: 0 <= i < |pools| ==> pools[i].Valid()
    }

    /** `NewMultiMmapBytePool(funcs...)`: `given` are the tuples in the order the options appended
        them. They are de-duplicated by bufSize (first tuple wins), each gets an MmapBytePool,
        and the pools are sorted in place by alignSize. */
    constructor (given: seq<MmapBytepoolTuple>, preload: bool, preloadSize: nat -> nat)
      ensures Valid()
      ensures |pools| == |KeepFirst(given, TupleBufSize)|
      ensures forall i, j :: 0 <= i < j < |pools| ==> pools[i].bufSize != pools[j].bufSize
      ensures forall t :: t in given ==> exists i :: 0 <= i < |pools| && pools[i].bufSize == t.bufSize
      ensures forall i :: 0 <= i < |pools| ==>
                fresh(pools[i]) &&
                pools[i].bufSize in KeepFirst(given, TupleBufSize) &&
                pools[i].capacity == KeepFirst(given, TupleBufSize)[pools[i].bufSize].poolSize &&
                pools[i].items == Preloaded(pools[i], preload, preloadSize)
    {
      var u := UniqBy(given, TupleBufSize);
      var built := BuildPools(u, preload, preloadSize);
      var sorted := SortByAlign(built);
      forall i | 0 <= i < |sorted|
        ensures fresh(sorted[i]) && sorted[i].Valid() && sorted[i].items == Preloaded(sorted[i], preload, preloadSize)
      {
        assert sorted[i] in multiset(built);
        var j :| 0 <= j < |built| && built[j] == sorted[i];
      }
      SortedPools(given, u, built, sorted);
      pools := sorted;
    }

    /** `find(size)`: the first bucket whose alignSize (not bufSize) is at least size. */
    method Find(size: int) returns (r: Option<nat>)
      requires Valid()
      ensures r == FirstFit(AlignSizes(pools), size)
      ensures r.Some? ==> r.value < |pools|
    {
      r := Scan(AlignSizes(pools), size);
    }

    /** `Get(size)`: a slice of length size with the chosen bucket's aligned capacity, or a fresh
        slice when none fits. Only the chosen bucket changes. */
    method Get(size: nat) returns (data: Bytes)
      requires Valid()
      modifies pools
      ensures Valid()
      ensures data.len == size
      ensures FirstFit(AlignSizes(pools), size).None? ==> data == Make(size)
      ensures forall k :: FirstFit(AlignSizes(pools), size) == Some(k) ==>
                data.cap == pools[k].alignSize &&
                pools[k].items == if old(pools[k].items) == [] then [] else old(pools[k].items)[1..]
      ensures forall i :: 0 <= i < |pools| && FirstFit(AlignSizes(pools), size) != Some(i) ==>
                pools[i].items == old(pools[i].items)
      ensures forall i :: 0 <= i < |pools| ==> pools[i].Unmapped == old(pools[i].Unmapped)
    {
      var k := Find(size);
      if k.Some? {
        var bucket := pools[k.value];
        var d := bucket.Get();
        data := Reslice(d, size);
        forall i | 0 <= i < |pools| && i != k.value
          ensures pools[i].items == old(pools[i].items) && pools[i].Unmapped == old(pools[i].Unmapped)
          ensures pools[i].Valid()
        {
          assert pools[i] != bucket;
        }
      } else {
        data := Make(size);
      }
    }

    /** `GetRef(size)`: like Get, wrapped in a handle bound to the chosen bucket, or to the last
        bucket when none fits (so the router needs at least one bucket). */
    method GetRef(size: nat) returns (ref: Ref<Bytes>)
      requires Valid() && |pools| > 0
      modifies pools
      ensures Valid() && fresh(ref) && ref.Valid() && ref.state == Open
      ensures ref.Obj.len == size
      ensures FirstFit(AlignSizes(pools), size).None? ==>
                ref.Obj == Make(size) && ref.Pool == pools[|pools| - 1]
      ensures forall k :: FirstFit(AlignSizes(pools), size) == Some(k) ==>
                ref.Obj.cap == pools[k].alignSize && ref.Pool == pools[k] &&
                pools[k].items == if old(pools[k].items) == [] then [] else old(pools[k].items)[1..]
      ensures forall i :: 0 <= i < |pools| && FirstFit(AlignSizes(pools), size) != Some(i) ==>
                pools[i].items == old(pools[i].items)
      ensures forall i :: 0 <= i < |pools| ==> pools[i].Unmapped == old(pools[i].Unmapped)
    {
      var k := Find(size);
      if k.Some? {
        var bucket := pools[k.value];
        var d := bucket.Get();
        ref := new Ref(Reslice(d, size), bucket);
        forall i | 0 <= i < |pools| && i != k.value
          ensures pools[i].items == old(pools[i].items) && pools[i].Unmapped == old(pools[i].Unmapped)
          ensures pools[i].Valid()
        {
          assert pools[i] != bucket;
        }
      } else {
        ref := new Ref(Make(size), pools[|pools| - 1]);
      }
    }

    /** `Put(data)`: routed by capacity to the first bucket whose alignSize fits, whose own Put
        keeps only slices of exactly its alignSize; a slice no bucket fits is discarded. */
    method Put(data: Bytes) returns (ok: bool)
      requires Valid()
      modifies pools
      ensures Valid()
      ensures FirstFit(AlignSizes(pools), data.cap).None? ==>
                !ok && forall i :: 0 <= i < |pools| ==>
                         pools[i].items == old(pools[i].items) && pools[i].Unmapped == old(pools[i].Unmapped)
      ensures forall k :: FirstFit(AlignSizes(pools), data.cap) == Some(k) ==>
                (ok <==> data.cap == pools[k].alignSize && |old(pools[k].items)| < pools[k].capacity) &&
                pools[k].items == (if ok then old(pools[k].items) + [Bytes(pools[k].bufSize, pools[k].alignSize)]
                                   else old(pools[k].items)) &&
                pools[k].Unmapped == if data.cap == pools[k].alignSize && !ok then old(pools[k].Unmapped) + [data]
                                     else old(pools[k].Unmapped)
      ensures forall i :: 0 <= i < |pools| && FirstFit(AlignSizes(pools), data.cap) != Some(i) ==>
                pools[i].items == old(pools[i].items) && pools[i].Unmapped == old(pools[i].Unmapped)
    {
      var k := Find(data.cap);
      if k.Some? {
        var bucket := pools[k.value];
        ok := bucket.Put(data);
        forall i | 0 <= i < |pools| && i != k.value
          ensures pools[i].items == old(pools[i].items) && pools[i].Unmapped == old(pools[i].Unmapped)
          ensures pools[i].Valid()
        {
          assert pools[i] != bucket;
        }
      } else {
        ok := false;
      }
    }
  }
}

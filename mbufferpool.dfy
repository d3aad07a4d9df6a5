/** `MultiBufferPool`: buffer-pool buckets, one per distinct bufSize, in strictly ascending
    order; a request goes to the first bucket whose bufSize is large enough. */
module Mbufferpool {
  import opened Slices
  import opened Sorting
  import opened Buckets
  import opened Refs
  import Options
  import Bufferpool

  /** `bufferpoolTuple`, as appended by `MultiBufferPoolSize(poolSize, bufSize)`. */
  datatype BufferpoolTuple = BufferpoolTuple(poolSize: nat, bufSize: nat)

  /** The de-duplication key: `uniq[t.bufSize]`. */
  function BufSizeOf(t: BufferpoolTuple): nat
  {
    t.bufSize
  }

  /** The key the constructor's `less` callback compares. */
  function BufKey(t: BufferpoolTuple): Key
  {
    Key(t.bufSize, 0)
  }

  /** The bucket sizes `find` scans, in bucket order. */
  function BufSizes(tuples: seq<BufferpoolTuple>): (r: seq<int>)
    ensures |r| == |tuples|
    ensures forall i :: 0 <= i < |tuples| ==> r[i] == tuples[i].bufSize
  {
    seq(|tuples|, i requires 0 <= i < |tuples| => tuples[i].bufSize)
  }

  /** Sorted by bufSize with no bufSize twice: the buckets strictly ascend. */
  lemma StrictlyAscending(tuples: seq<BufferpoolTuple>)
    requires SortedBy(tuples, BufKey) && DistinctKeys(tuples, BufSizeOf)
    ensures forall i, j :: 0 <= i < j < |tuples| ==> tuples[i].bufSize < tuples[j].bufSize
  {
    forall i, j | 0 <= i < j < |tuples|
      ensures tuples[i].bufSize < tuples[j].bufSize
    {
      assert Le(BufKey(tuples[i]), BufKey(tuples[j]));
      assert BufSizeOf(tuples[i]) != BufSizeOf(tuples[j]);
    }
  }

  /** On strictly ascending buckets the first fit is the only bucket that fits tightly: every
      earlier bucket is too small, and a size above the last bucket fits nowhere. */
  lemma FirstFitOnStrict(tuples: seq<BufferpoolTuple>, size: int)
    requires |tuples| > 0
    requires forall i, j :: 0 <= i < j < |tuples| ==> tuples[i].bufSize < tuples[j].bufSize
    ensures FirstFit(BufSizes(tuples), size).None? <==> tuples[|tuples| - 1].bufSize < size
    ensures forall k :: FirstFit(BufSizes(tuples), size) == Some(k) ==>
              size <= tuples[k].bufSize && (k == 0 || tuples[k - 1].bufSize < size)
  {
    FirstFitNoneOnAscending(BufSizes(tuples), size);
  }

  /** The de-duplicated tuples, once sorted, strictly ascend and are still the first tuple
      given for each bufSize, one per bufSize. */
  lemma SortedUniq(given: seq<BufferpoolTuple>, u: seq<BufferpoolTuple>, sorted: seq<BufferpoolTuple>)
    requires DistinctKeys(u, BufSizeOf)
    requires forall i :: 0 <= i < |u| ==>
               BufSizeOf(u[i]) in KeepFirst(given, BufSizeOf) && u[i] == KeepFirst(given, BufSizeOf)[BufSizeOf(u[i])]
    requires multiset(sorted) == multiset(u) && SortedBy(sorted, BufKey)
    ensures |sorted| == |u|
    ensures forall i, j :: 0 <= i < j < |sorted| ==> sorted[i].bufSize < sorted[j].bufSize
    ensures forall i :: 0 <= i < |sorted| ==>
              sorted[i].bufSize in KeepFirst(given, BufSizeOf) &&
              sorted[i] == KeepFirst(given, BufSizeOf)[sorted[i].bufSize]
  {
    PermutedFirsts(given, u, sorted, BufSizeOf);
    StrictlyAscending(sorted);
  }

  /** The `pools[i] = NewBufferPool(t.poolSize, t.bufSize, poolFuncs...)` loop: one new, empty
      BufferPool per tuple, in tuple order. */
  method BuildPools(tuples: seq<BufferpoolTuple>, computedMax: nat -> int) returns (ps: seq<Bufferpool.BufferPool>)
    ensures |ps| == |tuples|
    ensures forall j, l :: 0 <= j < l < |ps| ==> ps[j] != ps[l]
    ensures forall j :: 0 <= j < |ps| ==>
              fresh(ps[j]) && ps[j].Valid() && ps[j].items == [] &&
              ps[j].bufSize == tuples[j].bufSize && ps[j].capacity == tuples[j].poolSize &&
              ps[j].maxBufSize == Options.EffectiveMaxBufSize(computedMax(tuples[j].bufSize), tuples[j].bufSize)
  {
    ps := [];
    var i := 0;
    while i < |tuples|
      invariant 0 <= i <= |tuples| && |ps| == i
      invariant forall j, l :: 0 <= j < l < i ==> ps[j] != ps[l]
      invariant forall j :: 0 <= j < i ==>
                  fresh(ps[j]) && ps[j].Valid() && ps[j].items == [] &&
                  ps[j].bufSize == tuples[j].bufSize && ps[j].capacity == tuples[j].poolSize &&
                  ps[j].maxBufSize == Options.EffectiveMaxBufSize(computedMax(tuples[j].bufSize), tuples[j].bufSize)
    {
      var t := tuples[i];
      var p := new Bufferpool.BufferPool(t.poolSize, t.bufSize, computedMax(t.bufSize));
      ps := ps + [p];
      i := i + 1;
    }
  }

  class MultiBufferPool {
    const tuples: seq<BufferpoolTuple>
    const pools: seq<Bufferpool.BufferPool>

    ghost predicate Valid()
      reads this, pools
    {
      |pools| == |tuples| &&
      (forall i, j :: 0 <= i < j < |tuples| ==> tuples[i].bufSize < tuples[j].bufSize) &&
      (forall i, j :: 0 <= i < j < |pools| ==> pools[i] != pools[j]) &&
      forall i :: 0 <= i < |pools| ==>
        pools[i].Valid() && pools[i].bufSize == tuples[i].bufSize && pools[i].capacity == tuples[i].poolSize
    }

    /** `NewMultiBufferPool(funcs...)`: `given` are the tuples in the order the options appended
        them. They are de-duplicated by bufSize (first tuple wins), sorted, and each gets a
        BufferPool; `computedMax(b)` stands for `int(maxBufSizeFactor * b)`. */
    constructor (given: seq<BufferpoolTuple>, computedMax: nat -> int)
      ensures Valid()
      ensures |tuples| == |KeepFirst(given, BufSizeOf)|
      ensures forall i :: 0 <= i < |tuples| ==>
                tuples[i].bufSize in KeepFirst(given, BufSizeOf) &&
                tuples[i] == KeepFirst(given, BufSizeOf)[tuples[i].bufSize]
      ensures forall i :: 0 <= i < |pools| ==>
                fresh(pools[i]) && pools[i].items == [] &&
                pools[i].maxBufSize == Options.EffectiveMaxBufSize(computedMax(tuples[i].bufSize), tuples[i].bufSize)
    {
      var u := UniqBy(given, BufSizeOf);
      var a := new BufferpoolTuple[|u|](i requires 0 <= i < |u| => u[i]);
      assert a[..] == u;
      SortBy(a, BufKey);
      ghost var sorted := a[..];
      SortedUniq(given, u, sorted);
      var ps := BuildPools(a[..], computedMax);
      tuples := a[..];
      pools := ps;
    }

    /** `find(size)`: the first bucket whose bufSize is at least size. */
    method Find(size: int) returns (r: Option<nat>)
      requires Valid()
      ensures r == FirstFit(BufSizes(tuples), size)
      ensures r.Some? ==> r.value < |pools|
    {
      r := Scan(BufSizes(tuples), size);
    }

    /** `Get(size)`: the chosen bucket's Get (an empty bucket makes a buffer of capacity exactly
        its bufSize), or a fresh buffer of capacity size when none fits. */
    method Get(size: nat) returns (data: Bufferpool.Buffer)
      requires Valid()
      modifies pools
      ensures Valid()
      ensures FirstFit(BufSizes(tuples), size).None? ==> data == Bufferpool.NewBuffer(size)
      ensures forall k :: FirstFit(BufSizes(tuples), size) == Some(k) ==>
                data.len == 0 && data.cap >= tuples[k].bufSize &&
                (old(pools[k].items) == [] ==> data == Bufferpool.NewBuffer(tuples[k].bufSize) && pools[k].items == []) &&
                (old(pools[k].items) != [] ==> data == old(pools[k].items)[0] && pools[k].items == old(pools[k].items)[1..])
      ensures forall i :: 0 <= i < |pools| && FirstFit(BufSizes(tuples), size) != Some(i) ==>
                pools[i].items == old(pools[i].items)
    {
      var k := Find(size);
      if k.Some? {
        var bucket := pools[k.value];
        data := bucket.Get();
        forall i | 0 <= i < |pools| && i != k.value
          ensures pools[i].items == old(pools[i].items) && pools[i].Valid()
        {
          assert pools[i] != bucket;
        }
      } else {
        data := Bufferpool.NewBuffer(size);
      }
    }

    /** `GetRef(size)`: like Get, wrapped in a handle bound to the chosen bucket, or to the last
        bucket when none fits (so the router needs at least one bucket). */
    method GetRef(size: nat) returns (ref: Ref<Bufferpool.Buffer>)
      requires Valid() && |tuples| > 0
      modifies pools
      ensures Valid() && fresh(ref) && ref.Valid() && ref.state == Open
      ensures FirstFit(BufSizes(tuples), size).None? ==>
                ref.Obj == Bufferpool.NewBuffer(size) && ref.Pool == pools[|pools| - 1]
      ensures forall k :: FirstFit(BufSizes(tuples), size) == Some(k) ==>
                ref.Pool == pools[k] && ref.Obj.len == 0 && ref.Obj.cap >= tuples[k].bufSize &&
                (old(pools[k].items) == [] ==> ref.Obj == Bufferpool.NewBuffer(tuples[k].bufSize) && pools[k].items == []) &&
                (old(pools[k].items) != [] ==> ref.Obj == old(pools[k].items)[0] && pools[k].items == old(pools[k].items)[1..])
      ensures forall i :: 0 <= i < |pools| && FirstFit(BufSizes(tuples), size) != Some(i) ==>
                pools[i].items == old(pools[i].items)
    {
      var k := Find(size);
      if k.Some? {
        var bucket := pools[k.value];
        var data := bucket.Get();
        ref := new Ref(data, bucket);
        forall i | 0 <= i < |pools| && i != k.value
          ensures pools[i].items == old(pools[i].items) && pools[i].Valid()
        {
          assert pools[i] != bucket;
        }
      } else {
        ref := new Ref(Bufferpool.NewBuffer(size), pools[|pools| - 1]);
      }
    }

    /** `Put(data)`: routed by `Cap()` to the first bucket that fits, whose own Put decides; a
        buffer no bucket fits is discarded untouched. */
    method Put(data: Bufferpool.Buffer) returns (ok: bool)
      requires Valid()
      modifies pools
      ensures Valid()
      ensures FirstFit(BufSizes(tuples), data.cap).None? ==> !ok
      ensures forall k :: FirstFit(BufSizes(tuples), data.cap) == Some(k) ==>
                (ok <==> Bufferpool.Admissible(pools[k].maxBufSize, data) && |old(pools[k].items)| < pools[k].capacity) &&
                (ok ==> Bufferpool.Enqueued(old(pools[k].items), pools[k].items, pools[k].bufSize, data)) &&
                (!ok ==> pools[k].items == old(pools[k].items))
      ensures forall i :: 0 <= i < |pools| && FirstFit(BufSizes(tuples), data.cap) != Some(i) ==>
                pools[i].items == old(pools[i].items)
    {
      var k := Find(data.cap);
      if k.Some? {
        var bucket := pools[k.value];
        var after;
        ok, after := bucket.Put(data);
        forall i | 0 <= i < |pools| && i != k.value
          ensures pools[i].items == old(pools[i].items) && pools[i].Valid()
        {
          assert pools[i] != bucket;
        }
      } else {
        ok := false;
      }
    }
  }
}

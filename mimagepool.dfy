/** `MultiImageRGBAPool`, `MultiImageNRGBAPool` and `MultiImageYCbCrPool`: image-pool buckets,
    one per distinct rectangle, sorted by (width, height); a request goes to the first bucket at
    least as wide and as tall, and the handle's image is then adjusted to the request. */
module Mimagepool {
  import opened Slices
  import opened Sorting
  import opened Buckets
  import opened Geometry
  import opened Refs
  import opened Imagepool
  import opened Chan

  /** `imagepoolTuple`, as appended by `MultiImagePoolSize(poolSize, rect)`. */
  datatype ImagepoolTuple = ImagepoolTuple(poolSize: nat, rect: Rectangle)

  /** `rectIn(src, tgt)`: tgt is no wider and no taller than src; where they lie is ignored. */
  predicate RectIn(src: Rectangle, tgt: Rectangle)
  {
    tgt.Dx() <= src.Dx() && tgt.Dy() <= src.Dy()
  }

  /** `rectIn` looks at sizes only: moving the request anywhere in the plane never changes the
      answer, which is how a bucket can be chosen for a request whose 4:2:0 planes it cannot
      hold (`YCbCrFindOverrun`). */
  lemma RectInIgnoresPosition(src: Rectangle, tgt: Rectangle, dx: int, dy: int)
    ensures RectIn(src, tgt) <==> RectIn(src, Rect(tgt.minX + dx, tgt.minY + dy, tgt.maxX + dx, tgt.maxY + dy))
  {
  }

  /** The de-duplication key, `t.rect.String()`: the string spells out all four coordinates, so
      two tuples share it exactly when their rectangles are equal. */
  function TupleRect(t: ImagepoolTuple): Rectangle
  {
    t.rect
  }

  /** The key `sortTuples` compares: `Dx`, then `Dy` on a tie. */
  function SizeKey(t: ImagepoolTuple): Key
  {
    Key(t.rect.Dx(), t.rect.Dy())
  }

  /** The bucket rectangles `find` scans, in bucket order. */
  function Rects(tuples: seq<ImagepoolTuple>): (r: seq<Rectangle>)
    ensures |r| == |tuples|
    ensures forall i :: 0 <= i < |tuples| ==> r[i] == tuples[i].rect
  {
    seq(|tuples|, i requires 0 <= i < |tuples| => tuples[i].rect)
  }

  /** A bucket at least as wide and as tall as a well-formed request needs at least as many
      RGBA bytes. This is why an adjusted image fits the bucket's pix, and why an oversize pix
      that dominates the last bucket is admitted back into it. */
  lemma RGBALengthMonotone(big: Rectangle, small: Rectangle)
    requires small.WellFormed() && RectIn(big, small)
    ensures RGBALength(small) <= RGBALength(big)
    ensures ImageRGBAStride(small) <= ImageRGBAStride(big)
  {
    MulMonotone(small.Dx(), small.Dy(), big.Dx(), big.Dy());
  }

  /** `find` without the empty check: the first bucket that dominates r. */
  function FirstDominating(rects: seq<Rectangle>, r: Rectangle): (res: Option<nat>)
    ensures res.Some? ==> res.value < |rects| && RectIn(rects[res.value], r) &&
                          forall j :: 0 <= j < res.value ==> !RectIn(rects[j], r)
    ensures res.None? <==> forall j :: 0 <= j < |rects| ==> !RectIn(rects[j], r)
  {
    if rects == [] then None
    else if RectIn(rects[0], r) then Some(0)
    else match FirstDominating(rects[1..], r)
      case None => None
      case Some(k) => Some(k + 1)
  }

  /** The loop `for i, t := range b.tuples { if rectIn(t.rect, r) { return i } }`. */
  method ScanDominating(rects: seq<Rectangle>, r: Rectangle) returns (res: Option<nat>)
    ensures res == FirstDominating(rects, r)
  {
    var i := 0;
    while i < |rects|
      invariant 0 <= i <= |rects|
      invariant forall j :: 0 <= j < i ==> !RectIn(rects[j], r)
    {
      if RectIn(rects[i], r) {
        FirstDominatingIs(rects, r, i);
        return Some(i);
      }
      i := i + 1;
    }
    return None;
  }

  /** The first dominating bucket is determined by the two conditions that define it. */
  lemma FirstDominatingIs(rects: seq<Rectangle>, r: Rectangle, k: nat)
    requires k < |rects| && RectIn(rects[k], r)
    requires forall j :: 0 <= j < k ==> !RectIn(rects[j], r)
    ensures FirstDominating(rects, r) == Some(k)
  {
  }

  /** A bucket can serve a 4:2:0 request when it dominates it and its pix holds the request's
      three planes. */
  predicate Holds(bucket: Rectangle, r: Rectangle)
  {
    RectIn(bucket, r) && YCbCrLayout(r, Ratio420).length <= YCbCrLayout(bucket, Ratio420).length
  }

  /** The YCbCr `find` as it evidently should be: the first bucket that holds r. */
  function FirstHolding(rects: seq<Rectangle>, r: Rectangle): (res: Option<nat>)
    ensures res.Some? ==> res.value < |rects| && Holds(rects[res.value], r) &&
                          forall j :: 0 <= j < res.value ==> !Holds(rects[j], r)
    ensures res.None? <==> forall j :: 0 <= j < |rects| ==> !Holds(rects[j], r)
  {
    if rects == [] then None
    else if Holds(rects[0], r) then Some(0)
    else match FirstHolding(rects[1..], r)
      case None => None
      case Some(k) => Some(k + 1)
  }

  /** The scan for the corrected YCbCr `find`. */
  method ScanHolding(rects: seq<Rectangle>, r: Rectangle) returns (res: Option<nat>)
    ensures res == FirstHolding(rects, r)
  {
    var i := 0;
    while i < |rects|
      invariant 0 <= i <= |rects|
      invariant forall j :: 0 <= j < i ==> !Holds(rects[j], r)
    {
      if Holds(rects[i], r) {
        FirstHoldingIs(rects, r, i);
        return Some(i);
      }
      i := i + 1;
    }
    return None;
  }

  /** The first holding bucket is determined by the two conditions that define it. */
  lemma FirstHoldingIs(rects: seq<Rectangle>, r: Rectangle, k: nat)
    requires k < |rects| && Holds(rects[k], r)
    requires forall j :: 0 <= j < k ==> !Holds(rects[j], r)
    ensures FirstHolding(rects, r) == Some(k)
  {
  }

  /** Rectangles anchored at the origin: `image.Rect(0, 0, w, h)`. */
  predicate Anchored(r: Rectangle)
  {
    r.minX == 0 && r.minY == 0 && r.WellFormed()
  }

  /** At the origin the 4:2:0 chroma planes grow with width and height. */
  lemma AnchoredChromaMonotone(big: Rectangle, small: Rectangle)
    requires Anchored(big) && Anchored(small) && RectIn(big, small)
    ensures var (cw, ch) := YuvSize(small, Ratio420);
            var (bw, bh) := YuvSize(big, Ratio420);
            0 <= cw <= bw && 0 <= ch <= bh
  {
    HalfMonotone(small.maxX + 1, big.maxX + 1);
    HalfMonotone(small.maxY + 1, big.maxY + 1);
  }

  /** At the origin the whole 4:2:0 layout grows with width and height, so domination alone
      already guarantees the planes fit. */
  lemma AnchoredLayoutMonotone(big: Rectangle, small: Rectangle)
    requires Anchored(big) && Anchored(small) && RectIn(big, small)
    ensures Holds(big, small)
  {
    AnchoredChromaMonotone(big, small);
    YCbCrLayoutOrdered(small);
    YCbCrLayoutOrdered(big);
    var (cw, ch) := YuvSize(small, Ratio420);
    var (bw, bh) := YuvSize(big, Ratio420);
    MulMonotone(small.Dx(), small.Dy(), big.Dx(), big.Dy());
    MulMonotone(cw, ch, bw, bh);
  }

  /** For requests and buckets anchored at the origin, the corrected `find` picks exactly the
      bucket the original one picks. */
  lemma {:induction false} FindsAgreeWhenAnchored(rects: seq<Rectangle>, r: Rectangle)
    requires Anchored(r)
    requires forall i :: 0 <= i < |rects| ==> Anchored(rects[i])
    ensures FirstHolding(rects, r) == FirstDominating(rects, r)
  {
    if rects != [] {
      if RectIn(rects[0], r) {
        AnchoredLayoutMonotone(rects[0], r);
      } else {
        FindsAgreeWhenAnchored(rects[1..], r);
      }
    }
  }

  /** A 2x2 bucket at the origin has one chroma sample per plane: 4 + 1 + 1 bytes. */
  lemma OverrunBucketLayout(bucket: Rectangle)
    requires bucket == Rect(0, 0, 2, 2)
    ensures YCbCrLayout(bucket, Ratio420).length == 6
  {
    assert Half(3) == 1 && Half(0) == 0;
    assert YuvSize(bucket, Ratio420) == (1, 1);
  }

  /** A 2x2 request at (1, 1) straddles two chroma blocks per axis: 4 + 4 + 4 bytes. */
  lemma OverrunRequestLayout(r: Rectangle)
    requires r == Rect(1, 1, 3, 3)
    ensures YCbCrLayout(r, Ratio420) == Layout(4, 8, 12, 2, 2, 12)
  {
    assert Half(4) == 2 && Half(1) == 0;
    assert YuvSize(r, Ratio420) == (2, 2);
  }

  /** With the single bucket `image.Rect(0, 0, 2, 2)` and the request `image.Rect(1, 1, 3, 3)`,
      the original `find` picks the bucket, yet the request's planes lie at offsets 4, 8 and 12
      while the bucket's fresh pix holds 6 bytes, so `adjust`'s Cb slice `pix[4:8:8]` is already
      out of range. The corrected `find` refuses. */
  lemma YCbCrFindOverrun(rects: seq<Rectangle>, r: Rectangle)
    requires |rects| == 1 && rects[0] == Rect(0, 0, 2, 2) && r == Rect(1, 1, 3, 3)
    ensures FirstDominating(rects, r) == Some(0)
    ensures YCbCrLayout(rects[0], Ratio420).length < YCbCrLayout(r, Ratio420).i2
    ensures FirstHolding(rects, r).None?
  {
    OverrunBucketLayout(rects[0]);
    OverrunRequestLayout(r);
    FirstDominatingIs(rects, r, 0);
    assert !Holds(rects[0], r);
  }

  /** The test buckets 640x360, 1280x720 and 360x640, once sorted, and where requests of six
      sizes go, wherever they lie. */
  lemma WorkedRouting(rects: seq<Rectangle>, r: Rectangle)
    requires |rects| == 3
    requires rects[0] == Rect(0, 0, 360, 640) && rects[1] == Rect(0, 0, 640, 360) && rects[2] == Rect(0, 0, 1280, 720)
    ensures r.Dx() == 100 && r.Dy() == 100 ==> FirstDominating(rects, r) == Some(0)
    ensures r.Dx() == 360 && r.Dy() == 120 ==> FirstDominating(rects, r) == Some(0)
    ensures r.Dx() == 640 && r.Dy() == 320 ==> FirstDominating(rects, r) == Some(1)
    ensures r.Dx() == 360 && r.Dy() == 700 ==> FirstDominating(rects, r) == Some(2)
    ensures r.Dx() == 768 && r.Dy() == 432 ==> FirstDominating(rects, r) == Some(2)
    ensures r.Dx() == 1920 && r.Dy() == 1080 ==> FirstDominating(rects, r).None?
  {
    if RectIn(rects[0], r) {
      FirstDominatingIs(rects, r, 0);
    } else if RectIn(rects[1], r) {
      FirstDominatingIs(rects, r, 1);
    } else if RectIn(rects[2], r) {
      FirstDominatingIs(rects, r, 2);
    }
  }

  /** An oversize request's pix, released into the last bucket, is kept only when the request
      is at least as wide and as tall as that bucket: 1920x1080 against a 1280x720 bucket is
      kept, while a wide but short 2000x10 request, which no bucket dominates either, needs
      fewer bytes than the bucket's length and is discarded. */
  lemma OversizeRelease(rects: seq<Rectangle>, r: Rectangle)
    requires |rects| == 3
    requires rects[0] == Rect(0, 0, 360, 640) && rects[1] == Rect(0, 0, 640, 360) && rects[2] == Rect(0, 0, 1280, 720)
    ensures r.Dx() == 1920 && r.Dy() == 1080 ==> RGBALength(rects[2]) <= RGBALength(r)
    ensures r.Dx() == 2000 && r.Dy() == 10 ==>
              FirstDominating(rects, r).None? && RGBALength(r) < RGBALength(rects[2])
  {
    if r.Dx() == 1920 && r.Dy() == 1080 {
      RGBALengthMonotone(r, rects[2]);
    }
    if r.Dx() == 2000 && r.Dy() == 10 {
      assert RGBALength(r) == 80000;
      assert RGBALength(rects[2]) == 3686400;
    }
  }

  /** Exchanging the first and fourth, then the third and fourth, then the fourth and fifth of
      five elements keeps the same elements. */
  lemma ExchangedThrice<T>(g: seq<T>)
    requires |g| == 5
    ensures multiset([g[3], g[1], g[0], g[4], g[2]]) == multiset(g)
  {
    var s1 := g[0 := g[3]][3 := g[0]];
    Exchanged(g, 0, 3);
    var s2 := s1[2 := s1[3]][3 := s1[2]];
    Exchanged(s1, 2, 3);
    var s3 := s2[3 := s2[4]][4 := s2[3]];
    Exchanged(s2, 3, 4);
    assert s3 == [g[3], g[1], g[0], g[4], g[2]];
  }

  /** 360x640, 640x360, 640x640, 720x1280, 1280x720 is in `sortTuples` order, with no size twice. */
  lemma ExpectedOrder(e: seq<ImagepoolTuple>)
    requires |e| == 5
    requires e[0].rect == Rect(0, 0, 360, 640) && e[1].rect == Rect(0, 0, 640, 360)
    requires e[2].rect == Rect(0, 0, 640, 640) && e[3].rect == Rect(0, 0, 720, 1280)
    requires e[4].rect == Rect(0, 0, 1280, 720)
    ensures SortedBy(e, SizeKey)
    ensures forall i, j :: 0 <= i < j < |e| ==> SizeKey(e[i]) != SizeKey(e[j])
  {
    forall i, j | 0 <= i < j < |e|
      ensures Le(SizeKey(e[i]), SizeKey(e[j])) && SizeKey(e[i]) != SizeKey(e[j])
    {
      assert SizeKey(e[0]) == Key(360, 640) && SizeKey(e[1]) == Key(640, 360);
      assert SizeKey(e[2]) == Key(640, 640) && SizeKey(e[3]) == Key(720, 1280);
      assert SizeKey(e[4]) == Key(1280, 720);
    }
  }

  /** The five test rectangles 640x640, 640x360, 1280x720, 360x640 and 720x1280 can only come out
      of `sortTuples` as 360x640, 640x360, 640x640, 720x1280, 1280x720. */
  lemma WorkedSort(given: seq<ImagepoolTuple>, sorted: seq<ImagepoolTuple>)
    requires |given| == 5
    requires given[0].rect == Rect(0, 0, 640, 640) && given[1].rect == Rect(0, 0, 640, 360)
    requires given[2].rect == Rect(0, 0, 1280, 720) && given[3].rect == Rect(0, 0, 360, 640)
    requires given[4].rect == Rect(0, 0, 720, 1280)
    requires multiset(sorted) == multiset(given) && SortedBy(sorted, SizeKey)
    ensures sorted == [given[3], given[1], given[0], given[4], given[2]]
  {
    var expected := [given[3], given[1], given[0], given[4], given[2]];
    ExchangedThrice(given);
    ExpectedOrder(expected);
    SortedUnique(expected, sorted, SizeKey);
  }

  /** What `NewImageRGBAPool` leaves in a bucket: with preload set, min(preloadSize(poolSize),
      poolSize) fresh pix slices of the bucket's length, and nothing otherwise. */
  ghost function PreloadedRGBA(p: ImageRGBAPool, preload: bool, preloadSize: nat -> nat): seq<Bytes>
    reads p
  {
    if preload then Repeat(Make(p.length), Min(preloadSize(p.capacity), p.capacity)) else []
  }

  /** The same for `NewImageYCbCrPool`. */
  ghost function PreloadedYCbCr(p: ImageYCbCrPool, preload: bool, preloadSize: nat -> nat): seq<Bytes>
    reads p
  {
    if preload then Repeat(Make(p.length), Min(preloadSize(p.capacity), p.capacity)) else []
  }

  /** The `pools[i] = NewImageRGBAPool(t.poolSize, t.rect, poolFuncs...)` loop (or its NRGBA
      twin): one new pool per tuple, in tuple order. */
  method BuildRGBAPools(format: Format, tuples: seq<ImagepoolTuple>, preload: bool, preloadSize: nat -> nat)
    returns (ps: seq<ImageRGBAPool>)
    requires forall i :: 0 <= i < |tuples| ==> tuples[i].rect.WellFormed()
    ensures |ps| == |tuples|
    ensures forall j :: 0 <= j < |ps| ==>
              fresh(ps[j]) && ps[j].Valid() && ps[j].format == format &&
              ps[j].rect == tuples[j].rect && ps[j].capacity == tuples[j].poolSize &&
              ps[j].items == PreloadedRGBA(ps[j], preload, preloadSize)
  {
    ps := [];
    var i := 0;
    while i < |tuples|
      invariant 0 <= i <= |tuples| && |ps| == i
      invariant forall j :: 0 <= j < i ==>
                  fresh(ps[j]) && ps[j].Valid() && ps[j].format == format &&
                  ps[j].rect == tuples[j].rect && ps[j].capacity == tuples[j].poolSize &&
                  ps[j].items == PreloadedRGBA(ps[j], preload, preloadSize)
    {
      var t := tuples[i];
      var p := new ImageRGBAPool(format, t.poolSize, t.rect, preload, preloadSize(t.poolSize));
      ps := ps + [p];
      i := i + 1;
    }
  }

  /** The same loop for `NewImageYCbCrPool`. */
  method BuildYCbCrPools(sample: Subsample, tuples: seq<ImagepoolTuple>, preload: bool, preloadSize: nat -> nat)
    returns (ps: seq<ImageYCbCrPool>)
    requires forall i :: 0 <= i < |tuples| ==> tuples[i].rect.WellFormed()
    requires tuples != [] ==> sample == Ratio420
    ensures |ps| == |tuples|
    ensures forall j :: 0 <= j < |ps| ==>
              fresh(ps[j]) && ps[j].Valid() && ps[j].sample == sample &&
              ps[j].rect == tuples[j].rect && ps[j].capacity == tuples[j].poolSize &&
              ps[j].items == PreloadedYCbCr(ps[j], preload, preloadSize)
  {
    ps := [];
    var i := 0;
    while i < |tuples|
      invariant 0 <= i <= |tuples| && |ps| == i
      invariant forall j :: 0 <= j < i ==>
                  fresh(ps[j]) && ps[j].Valid() && ps[j].sample == sample &&
                  ps[j].rect == tuples[j].rect && ps[j].capacity == tuples[j].poolSize &&
                  ps[j].items == PreloadedYCbCr(ps[j], preload, preloadSize)
    {
      var t := tuples[i];
      var p := new ImageYCbCrPool(t.poolSize, t.rect, sample, preload, preloadSize(t.poolSize));
      ps := ps + [p];
      i := i + 1;
    }
  }

  /** `uniqImagepoolTuple` then `sortTuples`: one tuple per rectangle, the first given, sorted by
      (Dx, Dy). Distinct rectangles of equal size may come out in either order. */
  method UniqSortTuples(given: seq<ImagepoolTuple>) returns (tuples: seq<ImagepoolTuple>)
    ensures SortedBy(tuples, SizeKey) && DistinctKeys(tuples, TupleRect)
    ensures |tuples| == |KeepFirst(given, TupleRect)|
    ensures forall i :: 0 <= i < |tuples| ==>
              tuples[i].rect in KeepFirst(given, TupleRect) && tuples[i] == KeepFirst(given, TupleRect)[tuples[i].rect]
  {
    var u := UniqBy(given, TupleRect);
    var a := new ImagepoolTuple[|u|](i requires 0 <= i < |u| => u[i]);
    assert a[..] == u;
    SortBy(a, SizeKey);
    PermutedFirsts(given, u, a[..], TupleRect);
    tuples := a[..];
  }

  /** Every tuple that survives de-duplication was one of the given tuples. */
  lemma KeptTuplesGiven(given: seq<ImagepoolTuple>, tuples: seq<ImagepoolTuple>)
    requires forall i :: 0 <= i < |tuples| ==>
               tuples[i].rect in KeepFirst(given, TupleRect) && tuples[i] == KeepFirst(given, TupleRect)[tuples[i].rect]
    ensures forall i :: 0 <= i < |tuples| ==> tuples[i] in given
  {
    KeepFirstKeys(given, TupleRect);
  }

  /** `MultiImageRGBAPool` and `MultiImageNRGBAPool`, told apart by `format`. */
  class MultiImageRGBAPool {
    const format: Format
    const tuples: seq<ImagepoolTuple>
    const pools: seq<ImageRGBAPool>

    ghost predicate Valid()
      reads this, pools
    {
      |pools| == |tuples| &&
      SortedBy(tuples, SizeKey) && DistinctKeys(tuples, TupleRect) &&
      (forall i, j :: 0 <= i < j < |pools| ==> pools[i] != pools[j]) &&
      forall i :: 0 <= i < |pools| ==>
        pools[i].Valid() && pools[i].format == format &&
        pools[i].rect == tuples[i].rect && pools[i].capacity == tuples[i].poolSize
    }

    /** `NewMultiImageRGBAPool(funcs...)` / `NewMultiImageNRGBAPool(funcs...)`: `given` are the
        tuples in the order the options appended them. */
    constructor (format: Format, given: seq<ImagepoolTuple>, preload: bool, preloadSize: nat -> nat)
      requires forall i :: 0 <= i < |given| ==> given[i].rect.WellFormed()
      ensures Valid() && this.format == format
      ensures |tuples| == |KeepFirst(given, TupleRect)|
      ensures forall i :: 0 <= i < |tuples| ==>
                tuples[i].rect in KeepFirst(given, TupleRect) && tuples[i] == KeepFirst(given, TupleRect)[tuples[i].rect]
      ensures forall i :: 0 <= i < |pools| ==>
                fresh(pools[i]) && pools[i].items == PreloadedRGBA(pools[i], preload, preloadSize)
    {
      var ts := UniqSortTuples(given);
      KeptTuplesGiven(given, ts);
      var ps := BuildRGBAPools(format, ts, preload, preloadSize);
      forall i, j | 0 <= i < j < |ps|
        ensures ps[i] != ps[j]
      {
        assert TupleRect(ts[i]) != TupleRect(ts[j]);
      }
      this.format := format;
      tuples := ts;
      pools := ps;
    }

    /** `find(r)`: nothing for an empty rectangle, else the first bucket that dominates r. */
    method Find(r: Rectangle) returns (res: Option<nat>)
      requires Valid()
      ensures res == if r.Empty() then None else FirstDominating(Rects(tuples), r)
      ensures res.Some? ==> res.value < |pools|
    {
      if r.Empty() {
        return None;
      }
      res := ScanDominating(Rects(tuples), r);
    }

    /** `adjust(ref, r)`: the image now describes r, with r's stride. */
    method Adjust(ref: ImageRef<Packed>, r: Rectangle)
      modifies ref
      ensures ref.Img == old(ref.Img).(rect := r, stride := ImageRGBAStride(r))
    {
      ref.Img := ref.Img.(rect := r, stride := ImageRGBAStride(r));
    }

    /** `GetRef(r)`: an image of r over a pix slice long enough for it, taken from the chosen
        bucket, or freshly made and bound to the last bucket when no bucket is chosen. */
    method GetRef(r: Rectangle) returns (ref: ImageRef<Packed>)
      requires Valid() && |pools| > 0 && r.WellFormed()
      modifies pools
      ensures Valid() && fresh(ref) && fresh(ref.Handle)
      ensures ref.Handle.Valid() && ref.Handle.state == Open
      ensures ref.Img == Packed(format, ref.Handle.Obj, ImageRGBAStride(r), r)
      ensures RGBALength(r) <= ref.Handle.Obj.len <= ref.Handle.Obj.cap
      ensures (r.Empty() || FirstDominating(Rects(tuples), r).None?) ==>
                ref.Handle.Obj == Make(RGBALength(r)) && ref.Handle.Pool == pools[|pools| - 1]
      ensures forall k :: !r.Empty() && FirstDominating(Rects(tuples), r) == Some(k) ==>
                ref.Handle.Pool == pools[k] && ref.Handle.Obj.len == pools[k].length &&
                (old(pools[k].items) == [] ==> ref.Handle.Obj == Make(pools[k].length) && pools[k].items == []) &&
                (old(pools[k].items) != [] ==> ref.Handle.Obj == old(pools[k].items)[0] && pools[k].items == old(pools[k].items)[1..])
      ensures forall i :: 0 <= i < |pools| && (r.Empty() || FirstDominating(Rects(tuples), r) != Some(i)) ==>
                pools[i].items == old(pools[i].items)
    {
      var k := Find(r);
      if k.Some? {
        var bucket := pools[k.value];
        ref := bucket.GetRef();
        RGBALengthMonotone(tuples[k.value].rect, r);
        Adjust(ref, r);
        forall i | 0 <= i < |pools| && i != k.value
          ensures pools[i].items == old(pools[i].items) && pools[i].Valid()
        {
          assert pools[i] != bucket;
        }
      } else {
        assert RGBALength(r) >= 0;
        var pix := Make(RGBALength(r));
        ref := new ImageRef(Packed(format, pix, ImageRGBAStride(r), r), pix, pools[|pools| - 1]);
        Adjust(ref, r);
      }
    }

    /** `Put(pix, r)`: routed by r like GetRef; the chosen bucket's own Put decides, and a pix
        with no bucket is discarded. */
    method Put(pix: Bytes, r: Rectangle) returns (ok: bool)
      requires Valid()
      modifies pools
      ensures Valid()
      ensures (r.Empty() || FirstDominating(Rects(tuples), r).None?) ==> !ok
      ensures forall k :: !r.Empty() && FirstDominating(Rects(tuples), r) == Some(k) ==>
                (ok <==> pools[k].length <= pix.cap && |old(pools[k].items)| < pools[k].capacity) &&
                pools[k].items == if ok then old(pools[k].items) + [Bytes(pools[k].length, pix.cap)]
                                  else old(pools[k].items)
      ensures forall i :: 0 <= i < |pools| && (r.Empty() || FirstDominating(Rects(tuples), r) != Some(i)) ==>
                pools[i].items == old(pools[i].items)
    {
      var k := Find(r);
      if k.Some? {
        var bucket := pools[k.value];
        ok := bucket.Put(pix);
        forall i | 0 <= i < |pools| && i != k.value
          ensures pools[i].items == old(pools[i].items) && pools[i].Valid()
        {
          assert pools[i] != bucket;
        }
      } else {
        ok := false;
      }
    }
  }

  /** `MultiImageYCbCrPool`, with the corrected `find` (see `FirstHolding`). */
  class MultiImageYCbCrPool {
    const sample: Subsample
    const tuples: seq<ImagepoolTuple>
    const pools: seq<ImageYCbCrPool>

    ghost predicate Valid()
      reads this, pools
    {
      |pools| == |tuples| &&
      (pools != [] ==> sample == Ratio420) &&
      SortedBy(tuples, SizeKey) && DistinctKeys(tuples, TupleRect) &&
      (forall i, j :: 0 <= i < j < |pools| ==> pools[i] != pools[j]) &&
      forall i :: 0 <= i < |pools| ==>
        pools[i].Valid() && pools[i].sample == sample &&
        pools[i].rect == tuples[i].rect && pools[i].capacity == tuples[i].poolSize
    }

    /** `NewMultiImageYCbCrPool(sample, funcs...)`: each bucket's `NewImageYCbCrPool` panics on a
        ratio other than 4:2:0, so a router with any bucket needs that ratio. */
    constructor (sample: Subsample, given: seq<ImagepoolTuple>, preload: bool, preloadSize: nat -> nat)
      requires forall i :: 0 <= i < |given| ==> given[i].rect.WellFormed()
      requires given != [] ==> sample == Ratio420
      ensures Valid() && this.sample == sample
      ensures |tuples| == |KeepFirst(given, TupleRect)|
      ensures forall i :: 0 <= i < |tuples| ==>
                tuples[i].rect in KeepFirst(given, TupleRect) && tuples[i] == KeepFirst(given, TupleRect)[tuples[i].rect]
      ensures forall i :: 0 <= i < |pools| ==>
                fresh(pools[i]) && pools[i].items == PreloadedYCbCr(pools[i], preload, preloadSize)
    {
      var ts := UniqSortTuples(given);
      KeptTuplesGiven(given, ts);
      assert ts != [] ==> ts[0] in given;
      var ps := BuildYCbCrPools(sample, ts, preload, preloadSize);
      forall i, j | 0 <= i < j < |ps|
        ensures ps[i] != ps[j]
      {
        assert TupleRect(ts[i]) != TupleRect(ts[j]);
      }
      this.sample := sample;
      tuples := ts;
      pools := ps;
    }

    /** The corrected `find(r)`: the first bucket that dominates r and whose pix holds r's planes. */
    method Find(r: Rectangle) returns (res: Option<nat>)
      requires Valid()
      ensures res == FirstHolding(Rects(tuples), r)
      ensures res.Some? ==> res.value < |pools|
    {
      res := ScanHolding(Rects(tuples), r);
    }

    /** `adjust(ref, r)`: cut r's Y, Cb and Cr planes from the front of the pix slice and set r's
        rectangle and strides. The slicing needs the planes to end within the slice's capacity. */
    method Adjust(ref: ImageRef<YCbCr>, r: Rectangle)
      requires r.WellFormed() && sample == Ratio420
      requires YCbCrLayout(r, sample).i2 <= ref.Handle.Obj.cap
      modifies ref
      ensures var l := YCbCrLayout(r, sample);
              0 <= l.i0 <= l.i1 <= l.i2 &&
              ref.Img == YCbCrImage(l, l.strideY, l.strideUV, r, old(ref.Img.sample))
    {
      YCbCrLayoutOrdered(r);
      var l := YCbCrLayout(r, sample);
      ref.Img := ref.Img.(y := Plane(0, l.i0), cb := Plane(l.i0, l.i1), cr := Plane(l.i1, l.i2),
                          rect := r, yStride := l.strideY, cStride := l.strideUV);
    }

    /** `GetRef(r)`: a 4:2:0 image of r whose planes lie within the pix slice, taken from the chosen
        bucket, or freshly made for r and bound to the last bucket when no bucket is chosen. */
    method GetRef(r: Rectangle) returns (ref: ImageRef<YCbCr>)
      requires Valid() && |pools| > 0 && r.WellFormed()
      modifies pools
      ensures Valid() && fresh(ref) && fresh(ref.Handle)
      ensures ref.Handle.Valid() && ref.Handle.state == Open
      ensures var l := YCbCrLayout(r, Ratio420);
              0 <= l.i0 <= l.i1 <= l.i2 <= ref.Handle.Obj.cap &&
              ref.Img == YCbCrImage(l, l.strideY, l.strideUV, r, Ratio420)
      ensures FirstHolding(Rects(tuples), r).None? ==>
                ref.Handle.Obj == Make(YCbCrLayout(r, Ratio420).length) && ref.Handle.Pool == pools[|pools| - 1]
      ensures forall k :: FirstHolding(Rects(tuples), r) == Some(k) ==>
                ref.Handle.Pool == pools[k] && ref.Handle.Obj.len == pools[k].length &&
                (old(pools[k].items) == [] ==> ref.Handle.Obj == Make(pools[k].length) && pools[k].items == []) &&
                (old(pools[k].items) != [] ==> ref.Handle.Obj == old(pools[k].items)[0] && pools[k].items == old(pools[k].items)[1..])
      ensures forall i :: 0 <= i < |pools| && FirstHolding(Rects(tuples), r) != Some(i) ==>
                pools[i].items == old(pools[i].items)
    {
      YCbCrLayoutOrdered(r);
      var k := Find(r);
      if k.Some? {
        var bucket := pools[k.value];
        assert Holds(tuples[k.value].rect, r);
        ref := bucket.GetRef();
        assert YCbCrLayout(r, sample).i2 <= bucket.length <= ref.Handle.Obj.cap;
        Adjust(ref, r);
        forall i | 0 <= i < |pools| && i != k.value
          ensures pools[i].items == old(pools[i].items) && pools[i].Valid()
        {
          assert pools[i] != bucket;
        }
      } else {
        var l := YCbCrLayout(r, sample);
        var pix := Make(l.length);
        ref := new ImageRef(YCbCrImage(l, l.strideY, l.strideUV, r, sample), pix, pools[|pools| - 1]);
        Adjust(ref, r);
      }
    }

    /** `Put(pix, r)`: routed by r like GetRef; the chosen bucket's own Put decides, and a pix
        with no bucket is discarded. */
    method Put(pix: Bytes, r: Rectangle) returns (ok: bool)
      requires Valid()
      modifies pools
      ensures Valid()
      ensures FirstHolding(Rects(tuples), r).None? ==> !ok
      ensures forall k :: FirstHolding(Rects(tuples), r) == Some(k) ==>
                (ok <==> pools[k].length <= pix.cap && |old(pools[k].items)| < pools[k].capacity) &&
                pools[k].items == if ok then old(pools[k].items) + [Bytes(pools[k].length, pix.cap)]
                                  else old(pools[k].items)
      ensures forall i :: 0 <= i < |pools| && FirstHolding(Rects(tuples), r) != Some(i) ==>
                pools[i].items == old(pools[i].items)
    {
      var k := Find(r);
      if k.Some? {
        var bucket := pools[k.value];
        ok := bucket.Put(pix);
        forall i | 0 <= i < |pools| && i != k.value
          ensures pools[i].items == old(pools[i].items) && pools[i].Valid()
        {
          assert pools[i] != bucket;
        }
      } else {
        ok := false;
      }
    }
  }
}

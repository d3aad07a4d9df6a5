/** Pixel-buffer pools: `ImageRGBAPool`, `ImageNRGBAPool` (the same queue, a different image
    type) and `ImageYCbCrPool`, whose single backing slice is carved into Y, Cb and Cr planes. */
module Imagepool {
  import opened Slices
  import opened Chan
  import opened Geometry
  import opened Refs

  /** `image.YCbCrSubsampleRatio` */
  datatype Subsample = Ratio444 | Ratio422 | Ratio420 | Ratio440 | Ratio411 | Ratio410

  /** `notyetSupportedSampleRate`, the panic message for every ratio but 4:2:0. */
  const NotYetSupportedSampleRate: string := "not yet supported sample rate"

  /** Which of the two 4-bytes-per-pixel image types a pool hands out. */
  datatype Format = RGBA | NRGBA

  /** `image.RGBA` / `image.NRGBA`: Pix, Stride, Rect. */
  datatype Packed = Packed(format: Format, pix: Bytes, stride: int, rect: Rectangle)

  /** A plane view `pix[lo:hi:hi]` of the backing slice. */
  datatype Plane = Plane(lo: nat, hi: nat)

  /** `image.YCbCr`: three plane views, two strides, the rectangle and the ratio. */
  datatype YCbCr = YCbCr(y: Plane, cb: Plane, cr: Plane, yStride: int, cStride: int,
                         rect: Rectangle, sample: Subsample)

  /** `imageRGBAStride`: the bytes of one pixel row, four per pixel. */
  function ImageRGBAStride(rect: Rectangle): (stride: int)
    ensures rect.WellFormed() ==> stride >= 0 && stride % 4 == 0
  {
    rect.Dx() * 4
  }

  /** The `length` RGBA/NRGBA `init` stores: Dy rows of one stride each, never a negative count. */
  function RGBALength(rect: Rectangle): (n: int)
    ensures rect.WellFormed() ==> n == ImageRGBAStride(rect) * rect.Dy() && n >= 0
  {
    rect.Dx() * rect.Dy() * 4
  }

  /** `yuvSize`: the chroma plane's width and height. For 4:2:0 each chroma sample covers a
      2x2 block aligned to even coordinates; every other ratio is treated as 4:4:4. */
  function YuvSize(rect: Rectangle, sample: Subsample): (c: (int, int))
    ensures sample != Ratio420 ==> c == (rect.Dx(), rect.Dy())
    ensures sample == Ratio420 && rect.WellFormed() ==>
              0 <= c.0 && 0 <= c.1 && 2 * c.0 <= rect.Dx() + 2 && 2 * c.1 <= rect.Dy() + 2
  {
    if sample == Ratio420 then
      (Half(rect.maxX + 1) - Half(rect.minX), Half(rect.maxY + 1) - Half(rect.minY))
    else
      (rect.Dx(), rect.Dy())
  }

  /** The plane offsets and strides `init` (and the router's `adjust`) derive from a rectangle. */
  datatype Layout = Layout(i0: int, i1: int, i2: int, strideY: int, strideUV: int, length: int)

  /** `ImageYCbCrPool.init`'s arithmetic: i0 = w*h, i1 = i0 + cw*ch, i2 = i1 + cw*ch. */
  function YCbCrLayout(rect: Rectangle, sample: Subsample): (l: Layout)
    ensures l.length == l.i2 && l.i1 - l.i0 == l.i2 - l.i1
    ensures l.strideY == rect.Dx() && l.strideUV == YuvSize(rect, sample).0
  {
    var w, h := rect.Dx(), rect.Dy();
    var c := YuvSize(rect, sample);
    var cw, ch := c.0, c.1;
    var i0 := (w * h) + (0 * cw * ch);
    var i1 := (w * h) + (1 * cw * ch);
    var i2 := (w * h) + (2 * cw * ch);
    Layout(i0, i1, i2, w, cw, i2)
  }

  /** On a rectangle anchored at the origin, 4:2:0 chroma planes are ceil(w/2) x ceil(h/2). */
  lemma YuvSize420AtOrigin(w: nat, h: nat)
    ensures YuvSize(Origin(w, h), Ratio420) == ((w + 1) / 2, (h + 1) / 2)
  {
    var r := Rect(0, 0, w, h);
    assert Origin(w, h) == r;
    var (cw, ch) := YuvSize(r, Ratio420);
    assert cw == (w + 1) / 2 by {
      assert cw == Half(w + 1) - Half(0);
    }
    assert ch == (h + 1) / 2 by {
      assert ch == Half(h + 1) - Half(0);
    }
  }

  /** The YCbCr layout of a well-formed 4:2:0 rectangle: 0 <= i0 <= i1 <= i2 == length, the luma
      plane holds w*h bytes and both chroma planes hold cw*ch bytes, with strides w and cw. */
  lemma {:induction false} YCbCrLayoutOrdered(rect: Rectangle)
    requires rect.WellFormed()
    ensures var l := YCbCrLayout(rect, Ratio420);
            var (cw, ch) := YuvSize(rect, Ratio420);
            0 <= l.i0 <= l.i1 <= l.i2 == l.length &&
            l.i0 == rect.Dx() * rect.Dy() && l.i1 - l.i0 == cw * ch && l.i2 - l.i1 == cw * ch &&
            l.strideY == rect.Dx() && l.strideUV == cw
  {
    var (cw, ch) := YuvSize(rect, Ratio420);
    MulMonotone(0, 0, rect.Dx(), rect.Dy());
    MulMonotone(0, 0, cw, ch);
  }

  /** `pix[0:i0:i0]`, `pix[i0:i1:i1]`, `pix[i1:i2:i2]` as one image descriptor. */
  function YCbCrImage(l: Layout, strideY: int, strideUV: int, rect: Rectangle, sample: Subsample): (img: YCbCr)
    requires 0 <= l.i0 <= l.i1 <= l.i2
    ensures img.y.hi - img.y.lo + img.cb.hi - img.cb.lo + img.cr.hi - img.cr.lo == l.i2
  {
    YCbCr(Plane(0, l.i0), Plane(l.i0, l.i1), Plane(l.i1, l.i2), strideY, strideUV, rect, sample)
  }

  /** Two plane views share no byte. */
  predicate Disjoint(p: Plane, q: Plane)
  {
    p.hi <= q.lo || q.hi <= p.lo
  }

  /** The three planes carved from a 4:2:0 layout are pairwise disjoint, lie inside the first
      `length` bytes and together cover them. */
  lemma YCbCrPlanesPartition(rect: Rectangle, strideY: int, strideUV: int)
    requires rect.WellFormed()
    ensures var l := YCbCrLayout(rect, Ratio420);
            0 <= l.i0 <= l.i1 <= l.i2 &&
            var img := YCbCrImage(l, strideY, strideUV, rect, Ratio420);
            Disjoint(img.y, img.cb) && Disjoint(img.cb, img.cr) && Disjoint(img.y, img.cr) &&
            img.y.lo == 0 && img.cr.hi == l.length &&
            (img.y.hi - img.y.lo) + (img.cb.hi - img.cb.lo) + (img.cr.hi - img.cr.lo) == l.length
  {
    YCbCrLayoutOrdered(rect);
  }

  /** A 100x100 picture at the origin has 50x50 chroma planes: 10000 + 2 * 2500 bytes. */
  lemma YCbCrHundredSquare()
    ensures YuvSize(Rect(0, 0, 100, 100), Ratio420) == (50, 50)
    ensures YCbCrLayout(Rect(0, 0, 100, 100), Ratio420) == Layout(10000, 12500, 15000, 100, 50, 15000)
  {
    assert Half(101) == 50;
    assert 100 * 100 == 10000 && 50 * 50 == 2500;
  }

  class ImageRGBAPool {
    const format: Format
    const capacity: nat
    const rect: Rectangle
    const width: int
    const height: int
    const stride: int
    const length: nat
    /** The pix slices waiting in `b.pool`, oldest first. */
    var items: seq<Bytes>

    ghost predicate Valid()
      reads this
    {
      rect.WellFormed() &&
      width == rect.Dx() && height == rect.Dy() &&
      stride == ImageRGBAStride(rect) && length == RGBALength(rect) &&
      |items| <= capacity &&
      forall i :: 0 <= i < |items| ==> items[i].len == length && items[i].cap >= length
    }

    /** `NewImageRGBAPool` / `NewImageNRGBAPool` followed by `init(rect)`. */
    constructor (format: Format, poolSize: nat, rect: Rectangle, preload: bool, preloadSize: nat)
      requires rect.WellFormed()
      ensures Valid()
      ensures this.format == format && capacity == poolSize && this.rect == rect
      ensures stride == rect.Dx() * 4 && length == rect.Dx() * rect.Dy() * 4
      ensures items == if preload then Repeat(Make(length), Min(preloadSize, poolSize)) else []
    {
      assert RGBALength(rect) >= 0;
      this.format := format;
      capacity := poolSize;
      this.rect := rect;
      width := rect.Dx();
      height := rect.Dy();
      stride := ImageRGBAStride(rect);
      length := RGBALength(rect);
      items := [];
      new;
      if preload {
        Preload(preloadSize);
        SendAllRepeat([], capacity, Make(length), preloadSize);
      }
    }

    /** `preload`: Put `preloadSize` fresh slices of `length` bytes. */
    method Preload(preloadSize: nat)
      requires Valid()
      modifies this
      ensures Valid()
      ensures items == if 0 < capacity then SendAll(old(items), capacity, Repeat(Make(length), preloadSize))
                       else old(items)
    {
      if 0 < capacity {
        var i := 0;
        while i < preloadSize
          invariant 0 <= i <= preloadSize && Valid()
          invariant items == SendAll(old(items), capacity, Repeat(Make(length), i))
        {
          var _ := Put(Make(length));
          SendAllSnoc(old(items), capacity, Repeat(Make(length), i), Make(length));
          i := i + 1;
        }
      }
    }

    /** `GetRef`: the oldest queued pix slice, or a fresh one of exactly `length` bytes, wrapped
        in an image of this pool's format, stride and rectangle. */
    method GetRef() returns (ref: ImageRef<Packed>)
      requires Valid()
      modifies this
      ensures Valid() && fresh(ref) && fresh(ref.Handle)
      ensures ref.Handle.Valid() && ref.Handle.state == Open && ref.Handle.Pool == this
      ensures old(items) == [] ==> ref.Handle.Obj == Make(length) && items == []
      ensures old(items) != [] ==> ref.Handle.Obj == old(items)[0] && items == old(items)[1..]
      ensures ref.Handle.Obj.len == length && ref.Handle.Obj.cap >= length
      ensures ref.Img == Packed(format, ref.Handle.Obj, stride, rect)
    {
      var pix;
      if items != [] {
        pix := items[0];
        items := items[1..];
      } else {
        pix := Make(length);
      }
      ref := new ImageRef(Packed(format, pix, stride, rect), pix, this);
    }

    /** `Put`: reject a slice shorter than `length` in capacity, else try to enqueue `pix[:length]`. */
    method Put(pix: Bytes) returns (ok: bool)
      requires Valid()
      modifies this
      ensures Valid()
      ensures ok <==> length <= pix.cap && |old(items)| < capacity
      ensures items == if ok then old(items) + [Bytes(length, pix.cap)] else old(items)
    {
      if pix.cap < length {
        return false;
      }
      if |items| < capacity {
        items := items + [Reslice(pix, length)];
        ok := true;
      } else {
        ok := false;
      }
    }

    /** `ImageRGBARef.Release` / `ImageNRGBARef.Release`: hands back the backing pix slice. */
    method ReleaseRef(ref: Ref<Bytes>) returns (ok: bool)
      requires Valid() && ref.Valid() && ref.Pool == this
      modifies this, ref
      ensures Valid() && ref.Valid() && ref.state == Closed
      ensures old(ref.state) == Closed ==> !ok && items == old(items)
      ensures old(ref.state) == Open ==>
                (ok <==> length <= ref.Obj.cap && |old(items)| < capacity) &&
                items == if ok then old(items) + [Bytes(length, ref.Obj.cap)] else old(items)
    {
      var forward := ref.Release();
      ok := false;
      if forward.Some? {
        ok := Put(forward.value);
      }
    }

    /** `Len` */
    function Len(): (n: nat)
      requires Valid()
      reads this
      ensures n <= Cap()
    {
      |items|
    }

    /** `Cap` */
    function Cap(): nat
    {
      capacity
    }
  }

  class ImageYCbCrPool {
    const capacity: nat
    const rect: Rectangle
    const sample: Subsample
    const yIdx: nat
    const uIdx: nat
    const vIdx: nat
    var strideY: int
    var strideUV: int
    const length: nat
    /** The pix slices waiting in `b.pool`, oldest first. */
    var items: seq<Bytes>

    ghost predicate Valid()
      reads this
    {
      rect.WellFormed() && sample == Ratio420 &&
      var l := YCbCrLayout(rect, sample);
      yIdx == l.i0 && uIdx == l.i1 && vIdx == l.i2 && length == l.length &&
      yIdx <= uIdx <= vIdx == length &&
      |items| <= capacity &&
      forall i :: 0 <= i < |items| ==> items[i].len == length && items[i].cap >= length
    }

    /** The pool proper, after `NewImageYCbCrPool` has checked the ratio, followed by `init`. */
    constructor (poolSize: nat, rect: Rectangle, sample: Subsample, preload: bool, preloadSize: nat)
      requires rect.WellFormed() && sample == Ratio420
      ensures Valid()
      ensures capacity == poolSize && this.rect == rect && this.sample == sample
      ensures var l := YCbCrLayout(rect, sample);
              yIdx == l.i0 && uIdx == l.i1 && vIdx == l.i2 && length == l.length &&
              strideY == rect.Dx() && strideUV == l.strideUV
      ensures items == if preload then Repeat(Make(length), Min(preloadSize, poolSize)) else []
    {
      YCbCrLayoutOrdered(rect);
      var l := YCbCrLayout(rect, sample);
      capacity := poolSize;
      this.rect := rect;
      this.sample := sample;
      yIdx := l.i0;
      uIdx := l.i1;
      vIdx := l.i2;
      strideY := l.strideY;
      strideUV := l.strideUV;
      length := l.length;
      items := [];
      new;
      if preload {
        Preload(preloadSize);
        SendAllRepeat([], capacity, Make(length), preloadSize);
      }
    }

    /** `YStride` */
    method YStride(stride: int)
      modifies this`strideY
      ensures strideY == stride
    {
      strideY := stride;
    }

    /** `UVStride` */
    method UVStride(stride: int)
      modifies this`strideUV
      ensures strideUV == stride
    {
      strideUV := stride;
    }

    /** `preload`: Put `preloadSize` fresh slices of `length` bytes. */
    method Preload(preloadSize: nat)
      requires Valid()
      modifies this`items
      ensures Valid()
      ensures items == if 0 < capacity then SendAll(old(items), capacity, Repeat(Make(length), preloadSize))
                       else old(items)
    {
      if 0 < capacity {
        var i := 0;
        while i < preloadSize
          invariant 0 <= i <= preloadSize && Valid()
          invariant items == SendAll(old(items), capacity, Repeat(Make(length), i))
        {
          var _ := Put(Make(length));
          SendAllSnoc(old(items), capacity, Repeat(Make(length), i), Make(length));
          i := i + 1;
        }
      }
    }

    /** `createImageYCbCrRef`: the three planes cut from pix at this pool's offsets. */
    method CreateRef(pix: Bytes) returns (ref: ImageRef<YCbCr>)
      requires Valid() && vIdx <= pix.cap
      ensures fresh(ref) && fresh(ref.Handle)
      ensures ref.Handle.Valid() && ref.Handle.state == Open && ref.Handle.Obj == pix && ref.Handle.Pool == this
      ensures ref.Img == YCbCrImage(YCbCrLayout(rect, sample), strideY, strideUV, rect, sample)
    {
      var img := YCbCrImage(Layout(yIdx, uIdx, vIdx, strideY, strideUV, length), strideY, strideUV, rect, sample);
      ref := new ImageRef(img, pix, this);
    }

    /** `GetRef`: the oldest queued pix slice, or a fresh one of exactly `length` bytes. */
    method GetRef() returns (ref: ImageRef<YCbCr>)
      requires Valid()
      modifies this`items
      ensures Valid() && fresh(ref) && fresh(ref.Handle)
      ensures ref.Handle.Valid() && ref.Handle.state == Open && ref.Handle.Pool == this
      ensures old(items) == [] ==> ref.Handle.Obj == Make(length) && items == []
      ensures old(items) != [] ==> ref.Handle.Obj == old(items)[0] && items == old(items)[1..]
      ensures ref.Handle.Obj.len == length && ref.Handle.Obj.cap >= length
      ensures ref.Img == YCbCrImage(YCbCrLayout(rect, sample), strideY, strideUV, rect, sample)
    {
      var pix;
      if items != [] {
        pix := items[0];
        items := items[1..];
      } else {
        pix := Make(length);
      }
      ref := CreateRef(pix);
    }

    /** `Put`: reject a slice shorter than `length` in capacity, else try to enqueue `pix[:length]`. */
    method Put(pix: Bytes) returns (ok: bool)
      requires Valid()
      modifies this`items
      ensures Valid()
      ensures ok <==> length <= pix.cap && |old(items)| < capacity
      ensures items == if ok then old(items) + [Bytes(length, pix.cap)] else old(items)
    {
      if pix.cap < length {
        return false;
      }
      if |items| < capacity {
        items := items + [Reslice(pix, length)];
        ok := true;
      } else {
        ok := false;
      }
    }

    /** `ImageYCbCrRef.Release`: hands back the backing pix slice, not the plane views. */
    method ReleaseRef(ref: Ref<Bytes>) returns (ok: bool)
      requires Valid() && ref.Valid() && ref.Pool == this
      modifies this`items, ref
      ensures Valid() && ref.Valid() && ref.state == Closed
      ensures old(ref.state) == Closed ==> !ok && items == old(items)
      ensures old(ref.state) == Open ==>
                (ok <==> length <= ref.Obj.cap && |old(items)| < capacity) &&
                items == if ok then old(items) + [Bytes(length, ref.Obj.cap)] else old(items)
    {
      var forward := ref.Release();
      ok := false;
      if forward.Some? {
        ok := Put(forward.value);
      }
    }

    /** `Len` */
    function Len(): (n: nat)
      requires Valid()
      reads this
      ensures n <= Cap()
    {
      |items|
    }

    /** `Cap` */
    function Cap(): nat
    {
      capacity
    }
  }

  /** `NewImageYCbCrPool`: panics with `NotYetSupportedSampleRate` (None here) for every ratio
      other than 4:2:0. */
  method NewImageYCbCrPool(poolSize: nat, rect: Rectangle, sample: Subsample, preload: bool, preloadSize: nat)
    returns (p: Option<ImageYCbCrPool>)
    requires rect.WellFormed()
    ensures p.None? <==> sample != Ratio420
    ensures p.Some? ==> fresh(p.value) && p.value.Valid() && p.value.capacity == poolSize &&
                        p.value.rect == rect && p.value.length == YCbCrLayout(rect, sample).length
  {
    if sample != Ratio420 {
      return None;
    }
    var pool := new ImageYCbCrPool(poolSize, rect, sample, preload, preloadSize);
    p := Some(pool);
  }
}

/** `BufioReaderPool` and `BufioWriterPool`: bounded queues of buffered readers and writers whose
    buffer size is at least bufSize (exactly bufSize in strict mode). */
module Bufiopool {
  import opened Slices
  import opened Chan
  import opened Refs

  /** `defaultBufioSize` */
  const DefaultBufioSize: nat := 4 * 1024

  /** The stream a reader reads from or a writer writes to; `NoStream` is `nil`. */
  datatype Stream = NoStream | Stream(id: nat)

  /** A `*bufio.Reader` as the pool sees it: `Size()` and its source. */
  datatype BufioReader = Reader(size: nat, src: Stream)

  /** A `*bufio.Writer` as the pool sees it: `Size()` and its destination. */
  datatype BufioWriter = Writer(size: nat, dst: Stream)

  /** `bufio.NewReaderSize(nil, n)`: the standard library never makes a reader smaller than 16 bytes. */
  function NewReaderSize(n: nat): (r: BufioReader)
    ensures r.src == NoStream
    ensures n >= 16 ==> r.size == n
    ensures n < 16 ==> r.size == 16
  {
    Reader(if n < 16 then 16 else n, NoStream)
  }

  /** `bufio.NewWriterSize(nil, n)`: a non-positive size becomes the 4096-byte default. */
  function NewWriterSize(n: nat): (w: BufioWriter)
    ensures w.dst == NoStream
    ensures n > 0 ==> w.size == n
    ensures n == 0 ==> w.size == DefaultBufioSize
  {
    Writer(if n == 0 then DefaultBufioSize else n, NoStream)
  }

  /** Put's admission rule on `Size()`: never below bufSize, and in strict mode never above. */
  predicate Admissible(bufSize: nat, strict: bool, size: nat)
  {
    !(size < bufSize) && !(bufSize < size && strict)
  }

  /** Non-strict pools keep any size from bufSize up; strict pools keep exactly bufSize. */
  lemma AdmissibleModes(bufSize: nat, size: nat)
    ensures Admissible(bufSize, false, size) <==> bufSize <= size
    ensures Admissible(bufSize, true, size) <==> size == bufSize
  {
  }

  class BufioReaderPool {
    const capacity: nat
    const bufSize: nat
    const strict: bool
    /** The readers waiting in `b.pool`, oldest first. */
    var items: seq<BufioReader>

    ghost predicate Valid()
      reads this
    {
      |items| <= capacity &&
      forall i :: 0 <= i < |items| ==>
        items[i].src == NoStream && Admissible(bufSize, strict, items[i].size)
    }

    /** `newBufioReaderPool(poolSize, bufSize, sizeStrict)`. */
    constructor (poolSize: nat, bufSize: nat, sizeStrict: bool, preload: bool, preloadSize: nat)
      ensures Valid()
      ensures capacity == poolSize && this.bufSize == bufSize && strict == sizeStrict
      ensures items == if preload && Admissible(bufSize, strict, NewReaderSize(bufSize).size)
                       then Repeat(NewReaderSize(bufSize), Min(preloadSize, poolSize))
                       else []
    {
      capacity := poolSize;
      this.bufSize := bufSize;
      strict := sizeStrict;
      items := [];
      new;
      if preload {
        Preload(preloadSize);
        SendAllRepeat([], capacity, NewReaderSize(bufSize), preloadSize);
      }
    }

    /** `preload`: Put `preloadSize` fresh readers of size bufSize. */
    method Preload(preloadSize: nat)
      requires Valid()
      modifies this
      ensures Valid()
      ensures items == if 0 < capacity && Admissible(bufSize, strict, NewReaderSize(bufSize).size)
                       then SendAll(old(items), capacity, Repeat(NewReaderSize(bufSize), preloadSize))
                       else old(items)
    {
      if 0 < capacity {
        var i := 0;
        while i < preloadSize
          invariant 0 <= i <= preloadSize && Valid()
          invariant items == if Admissible(bufSize, strict, NewReaderSize(bufSize).size)
                             then SendAll(old(items), capacity, Repeat(NewReaderSize(bufSize), i))
                             else old(items)
        {
          var ok, after := Put(NewReaderSize(bufSize));
          SendAllSnoc(old(items), capacity, Repeat(NewReaderSize(bufSize), i), NewReaderSize(bufSize));
          i := i + 1;
        }
      }
    }

    /** `Get(r)`: the oldest queued reader, or a fresh one of size bufSize, reset onto r. */
    method Get(r: Stream) returns (br: BufioReader)
      requires Valid()
      modifies this
      ensures Valid()
      ensures br.src == r
      ensures old(items) == [] ==> br.size == NewReaderSize(bufSize).size && items == []
      ensures old(items) != [] ==> br.size == old(items)[0].size && items == old(items)[1..]
      ensures Admissible(bufSize, strict, br.size) || old(items) == []
    {
      if items != [] {
        br := items[0];
        items := items[1..];
      } else {
        br := NewReaderSize(bufSize);
      }
      br := br.(src := r);
    }

    /** `GetRef(r)`: Get, wrapped in a fresh open handle bound to this pool. */
    method GetRef(r: Stream) returns (ref: Ref<BufioReader>)
      requires Valid()
      modifies this
      ensures Valid() && fresh(ref) && ref.Valid() && ref.state == Open && ref.Pool == this
      ensures ref.Obj.src == r
      ensures old(items) == [] ==> ref.Obj.size == NewReaderSize(bufSize).size && items == []
      ensures old(items) != [] ==> ref.Obj.size == old(items)[0].size && items == old(items)[1..]
    {
      var br := Get(r);
      ref := new Ref(br, this);
    }

    /** `Put`: detach the reader from its source (whatever happens next), check its size, then
        try to enqueue it. `after` is the state the caller's reader is left in. */
    method Put(br: BufioReader) returns (ok: bool, after: BufioReader)
      requires Valid()
      modifies this
      ensures Valid()
      ensures after == br.(src := NoStream)
      ensures ok <==> Admissible(bufSize, strict, br.size) && |old(items)| < capacity
      ensures items == if ok then old(items) + [after] else old(items)
    {
      after := br.(src := NoStream);
      if after.size < bufSize {
        return false, after;
      }
      if bufSize < after.size {
        if strict {
          return false, after;
        }
      }
      if |items| < capacity {
        items := items + [after];
        ok := true;
      } else {
        ok := false;
      }
    }

    /** `BufioReaderRef.Release` on a handle of this pool. */
    method ReleaseRef(ref: Ref<BufioReader>) returns (ok: bool)
      requires Valid() && ref.Valid() && ref.Pool == this
      modifies this, ref
      ensures Valid() && ref.Valid() && ref.state == Closed
      ensures old(ref.state) == Closed ==> !ok && items == old(items)
      ensures old(ref.state) == Open ==>
                (ok <==> Admissible(bufSize, strict, ref.Obj.size) && |old(items)| < capacity) &&
                items == if ok then old(items) + [ref.Obj.(src := NoStream)] else old(items)
    {
      var forward := ref.Release();
      ok := false;
      if forward.Some? {
        var after;
        ok, after := Put(forward.value);
      }
    }

    /** `Len` */
    function Len(): (n: nat)
      requires Valid()
      reads this
      ensures n <= Cap()
    {
      |items|
    }

    /** `Cap` */
    function Cap(): nat
    {
      capacity
    }
  }

  /** `NewBufioReaderPool`: default size 4096, not strict. */
  method NewBufioReaderPool(poolSize: nat, preload: bool, preloadSize: nat) returns (p: BufioReaderPool)
    ensures fresh(p) && p.Valid() && p.capacity == poolSize
    ensures p.bufSize == DefaultBufioSize && !p.strict
    ensures |p.items| == if preload then Min(preloadSize, poolSize) else 0
  {
    p := new BufioReaderPool(poolSize, DefaultBufioSize, false, preload, preloadSize);
  }

  /** `NewBufioReaderSizePool`: the given size, strict. */
  method NewBufioReaderSizePool(poolSize: nat, bufSize: nat, preload: bool, preloadSize: nat)
    returns (p: BufioReaderPool)
    ensures fresh(p) && p.Valid() && p.capacity == poolSize
    ensures p.bufSize == bufSize && p.strict
    ensures |p.items| == if preload && bufSize >= 16 then Min(preloadSize, poolSize) else 0
  {
    p := new BufioReaderPool(poolSize, bufSize, true, preload, preloadSize);
  }

  class BufioWriterPool {
    const capacity: nat
    const bufSize: nat
    const strict: bool
    /** The writers waiting in `b.pool`, oldest first. */
    var items: seq<BufioWriter>

    ghost predicate Valid()
      reads this
    {
      |items| <= capacity &&
      forall i :: 0 <= i < |items| ==>
        items[i].dst == NoStream && Admissible(bufSize, strict, items[i].size)
    }

    /** `newBufioWriterPool(poolSize, bufSize, sizeStrict)`. */
    constructor (poolSize: nat, bufSize: nat, sizeStrict: bool, preload: bool, preloadSize: nat)
      ensures Valid()
      ensures capacity == poolSize && this.bufSize == bufSize && strict == sizeStrict
      ensures items == if preload && Admissible(bufSize, strict, NewWriterSize(bufSize).size)
                       then Repeat(NewWriterSize(bufSize), Min(preloadSize, poolSize))
                       else []
    {
      capacity := poolSize;
      this.bufSize := bufSize;
      strict := sizeStrict;
      items := [];
      new;
      if preload {
        Preload(preloadSize);
        SendAllRepeat([], capacity, NewWriterSize(bufSize), preloadSize);
      }
    }

    /** `preload`: Put `preloadSize` fresh writers of size bufSize. */
    method Preload(preloadSize: nat)
      requires Valid()
      modifies this
      ensures Valid()
      ensures items == if 0 < capacity && Admissible(bufSize, strict, NewWriterSize(bufSize).size)
                       then SendAll(old(items), capacity, Repeat(NewWriterSize(bufSize), preloadSize))
                       else old(items)
    {
      if 0 < capacity {
        var i := 0;
        while i < preloadSize
          invariant 0 <= i <= preloadSize && Valid()
          invariant items == if Admissible(bufSize, strict, NewWriterSize(bufSize).size)
                             then SendAll(old(items), capacity, Repeat(NewWriterSize(bufSize), i))
                             else old(items)
        {
          var ok, after := Put(NewWriterSize(bufSize));
          SendAllSnoc(old(items), capacity, Repeat(NewWriterSize(bufSize), i), NewWriterSize(bufSize));
          i := i + 1;
        }
      }
    }

    /** `Get(w)`: the oldest queued writer, or a fresh one of size bufSize, reset onto w. */
    method Get(w: Stream) returns (bw: BufioWriter)
      requires Valid()
      modifies this
      ensures Valid()
      ensures bw.dst == w
      ensures old(items) == [] ==> bw.size == NewWriterSize(bufSize).size && items == []
      ensures old(items) != [] ==> bw.size == old(items)[0].size && items == old(items)[1..]
      ensures Admissible(bufSize, strict, bw.size) || old(items) == []
    {
      if items != [] {
        bw := items[0];
        items := items[1..];
      } else {
        bw := NewWriterSize(bufSize);
      }
      bw := bw.(dst := w);
    }

    /** `GetRef(w)`: Get, wrapped in a fresh open handle bound to this pool. */
    method GetRef(w: Stream) returns (ref: Ref<BufioWriter>)
      requires Valid()
      modifies this
      ensures Valid() && fresh(ref) && ref.Valid() && ref.state == Open && ref.Pool == this
      ensures ref.Obj.dst == w
      ensures old(items) == [] ==> ref.Obj.size == NewWriterSize(bufSize).size && items == []
      ensures old(items) != [] ==> ref.Obj.size == old(items)[0].size && items == old(items)[1..]
    {
      var bw := Get(w);
      ref := new Ref(bw, this);
    }

    /** `Put`: detach the writer from its destination, check its size, then try to enqueue it. */
    method Put(bw: BufioWriter) returns (ok: bool, after: BufioWriter)
      requires Valid()
      modifies this
      ensures Valid()
      ensures after == bw.(dst := NoStream)
      ensures ok <==> Admissible(bufSize, strict, bw.size) && |old(items)| < capacity
      ensures items == if ok then old(items) + [after] else old(items)
    {
      after := bw.(dst := NoStream);
      if after.size < bufSize {
        return false, after;
      }
      if bufSize < after.size {
        if strict {
          return false, after;
        }
      }
      if |items| < capacity {
        items := items + [after];
        ok := true;
      } else {
        ok := false;
      }
    }

    /** `BufioWriterRef.Release` on a handle of this pool. */
    method ReleaseRef(ref: Ref<BufioWriter>) returns (ok: bool)
      requires Valid() && ref.Valid() && ref.Pool == this
      modifies this, ref
      ensures Valid() && ref.Valid() && ref.state == Closed
      ensures old(ref.state) == Closed ==> !ok && items == old(items)
      ensures old(ref.state) == Open ==>
                (ok <==> Admissible(bufSize, strict, ref.Obj.size) && |old(items)| < capacity) &&
                items == if ok then old(items) + [ref.Obj.(dst := NoStream)] else old(items)
    {
      var forward := ref.Release();
      ok := false;
      if forward.Some? {
        var after;
        ok, after := Put(forward.value);
      }
    }

    /** `Len` */
    function Len(): (n: nat)
      requires Valid()
      reads this
      ensures n <= Cap()
    {
      |items|
    }

    /** `Cap` */
    function Cap(): nat
    {
      capacity
    }
  }

  /** `NewBufioWriterPool`: default size 4096, not strict. */
  method NewBufioWriterPool(poolSize: nat, preload: bool, preloadSize: nat) returns (p: BufioWriterPool)
    ensures fresh(p) && p.Valid() && p.capacity == poolSize
    ensures p.bufSize == DefaultBufioSize && !p.strict
    ensures |p.items| == if preload then Min(preloadSize, poolSize) else 0
  {
    p := new BufioWriterPool(poolSize, DefaultBufioSize, false, preload, preloadSize);
  }

  /** `NewBufioWriterSizePool`: the given size, strict. */
  method NewBufioWriterSizePool(poolSize: nat, bufSize: nat, preload: bool, preloadSize: nat)
    returns (p: BufioWriterPool)
    ensures fresh(p) && p.Valid() && p.capacity == poolSize
    ensures p.bufSize == bufSize && p.strict
    ensures |p.items| == if preload && bufSize > 0 then Min(preloadSize, poolSize) else 0
  {
    p := new BufioWriterPool(poolSize, bufSize, true, preload, preloadSize);
  }
}

# bp: bounded object pools, modelled in Dafny

`bp` is a Go library of fixed-size pools. Each pool is a buffered channel of recyclable objects:
- byte slices;
- `bytes.Buffer`s;
- `bufio` readers and writers;
- slices carved from anonymous memory mappings;
- pixel buffers for RGBA, NRGBA and YCbCr images.

`Get` takes the oldest queued object, or makes a fresh one when the queue is empty. `Put` first checks whether the object may be kept, then enqueues it if there is room; otherwise it is discarded. `GetRef` wraps the object in a handle whose first `Release` hands it back to the pool it came from.

The multi-pools are size-tiered routers. Each holds one pool per bucket, sorted by size, and sends every request to the first bucket that is large enough. When no bucket is large enough, a fresh object is made, and its handle is bound to the last bucket.

This project models that core:
- Every pool is a Dafny `class`. Its channel is `items: seq<...>`, oldest first, and its fixed channel capacity is `capacity`.
- The objects the pools store become value datatypes holding only what the pools look at:
  - a slice header `Bytes(len, cap)`;
  - a buffer `Buffer(len, cap)`;
  - a reader `Reader(size, src)` and a writer `Writer(size, dst)`;
  - image descriptors.
- The non-blocking channel send is the function `Chan.Send`, and a run of sends is `Chan.SendAll`.
- Each loop in the source becomes a method with loop invariants, proved against a specification function:
  - the preload loops;
  - the routers' `find` scans;
  - `uniq*Tuple`;
  - the pool-building loops;
  - `sort.Slice`, as an in-place insertion sort on an array.
- The handles (`ByteRef`, `BufferRef`, ...) are one generic class `Refs.Ref<T>`. Its `Release` returns the object to forward to the pool's `Put`, or nothing after the first call. Each pool's `ReleaseRef` method makes that `Put`.

Module per source file:

| module | source |
|---|---|
| `Slices` | slice headers and re-slicing |
| `Chan` | buffered channel with non-blocking sends |
| `Options` | option.go defaults, in integer form |
| `Refs` | ref.go |
| `Bytepool` | bytepool.go |
| `Bufferpool` | bufferpool.go |
| `Bufiopool` | bufiopool.go |
| `BytepoolMmap` | bytepool_mmap.go |
| `Geometry` | `image.Rectangle` and Go's integer halving |
| `Imagepool` | imagepool.go |
| `Sorting` | `sort.Slice` with the routers' `less` callbacks |
| `Buckets` | the shared first-fit scan and `uniq*Tuple` |
| `Mbytepool` | mbytepool.go |
| `Mbufferpool` | mbufferpool.go |
| `MbytepoolMmap` | mbytepool_mmap.go |
| `Mimagepool` | mimagepool.go |

## Model

| member | source | states |
|---|---|---|
| Chan.Repeat | bytepool.go:40-47 | the preload input: exactly n copies of one value |
| Chan.SendAllSnoc | bytepool.go:40-47 | one more non-blocking send after a run of sends equals one longer run |
| Chan.SendAllKeepsPrefix | bytepool.go:40-47 | a run of non-blocking sends keeps what was queued, in front and in order; it appends exactly the first values that fit; the queue ends at min(queued + sent, capacity) |
| Chan.SendAllWhenFull | bytepool.go:60-79 | once the channel is full, the `default` branch makes every later send a no-op |
| Chan.SendAllRepeat | bytepool.go:40-47 | preloading n equal values adds min(n, free room) copies of it |
| Options.DefaultMaxBufSize | option.go:5-10 | `int(1.25 * bufSize)` is the truncated exact product (4m <= 5b < 4m + 4), and it is never below bufSize |
| Options.DefaultPreloadSize | option.go:5-10 | `int(cap * 0.25)` is the truncated quarter of the capacity |
| Options.DefaultEffectiveMax | bytepool.go:18-23 | with the default factor 1.25 the below-1 fallback only fires for bufSize 0; the maximum is never below bufSize, and above it exactly from bufSize 4 on |
| Options.DefaultPreloadOfTwelve | bytepool_test.go:275-282 | a capacity-12 pool preloads 3 objects at the default rate |
| Refs.ReleaseExactlyOnce | ref.go:58-62 | however many times an open handle is released (at least once), it ends closed, and its pool receives exactly one Put |
| Refs.ReleasesAfterClose | ref.go:58-62 | releasing a closed handle never reaches the pool |
| Refs.Ref.constructor | ref.go:64-70 | a new handle is open, and holds its object and its pool |
| Refs.Ref.IsClosed | ref.go:50-52 | a handle reads as closed exactly when its object has been handed to the pool, and then exactly once |
| Refs.Ref.Value | ref.go:46-48 | the object the accessor returns is the one object a closed handle has handed to the pool |
| Refs.Ref.Release | ref.go:58-62 | the first call flips open to closed and forwards the object; later calls forward nothing; the object is forwarded exactly once over the handle's life |
| Refs.ImageRef.constructor | ref.go:193-200 | an image handle carries its descriptor and an open handle on the backing pix slice, bound to the given pool |
| Bytepool.NormalizeReadmitted | bytepool.go:60-79 | a kept slice is queued as exactly a fresh bufSize slice; it passes Put's test again, and re-slicing it again changes nothing |
| Bytepool.DefaultsAdmitFresh | bytepool.go:9-30 | with the default factor, the fresh slices preload makes always pass Put's test |
| Bytepool.AdmissibleRange | bytepool.go:60-79 | Put keeps a slice exactly when bufSize <= cap <= maxBufSize |
| Bytepool.BytePool.constructor | bytepool.go:9-30 | capacity, bufSize, and maxBufSize after the below-1 fallback; with preload set, min(preloadSize, poolSize) fresh slices are queued when Put would keep one, otherwise none |
| Bytepool.BytePool.Preload | bytepool.go:40-47 | the queue afterwards equals the channel function `SendAll` of preloadSize fresh slices, unless the pool has no capacity or Put keeps none of them |
| Bytepool.BytePool.Get | bytepool.go:49-58 | the result always has length and capacity bufSize; the oldest queued slice is dequeued when there is one |
| Bytepool.BytePool.GetRef | bytepool.go:32-38 | Get, wrapped in a fresh open handle bound to this pool |
| Bytepool.BytePool.Put | bytepool.go:60-79 | succeeds exactly when the capacity is in range and the channel has room; then `data[:bufSize:bufSize]` is appended, otherwise nothing changes |
| Bytepool.BytePool.ReleaseRef | ref.go:58-62 | the first release of a handle behaves as Put of its slice; a later one changes nothing and reports false |
| Bytepool.BytePool.Len | bytepool.go:81-83 | the number of queued slices never exceeds Cap |
| Bufferpool.Reset | bufferpool.go:63-85 | `Reset` empties the buffer and keeps its capacity |
| Bufferpool.PreparedBounds | bufferpool.go:63-85 | a buffer Put keeps is empty and holds at least bufSize bytes, and never less than before |
| Bufferpool.GrownThenResetPrepared | bufferpool.go:69-75 | `Grow(bufSize)` then `Reset()`, whatever capacity the runtime picks for the growth, leaves an empty buffer with room for the old content plus bufSize |
| Bufferpool.BufferPool.constructor | bufferpool.go:14-41 | the pool starts empty, preload or not, because the calibration hook does nothing |
| Bufferpool.BufferPool.Get | bufferpool.go:51-61 | an empty buffer of at least bufSize capacity: the oldest queued one, or a fresh one of exactly bufSize |
| Bufferpool.BufferPool.GetRef | bufferpool.go:43-49 | Get, wrapped in a fresh open handle bound to this pool |
| Bufferpool.BufferPool.Put | bufferpool.go:63-85 | a capacity at or above maxBufSize is rejected untouched; otherwise the buffer is reset, keeping its capacity when it already holds bufSize and growing to room for its content plus bufSize when it does not; it is enqueued exactly when there is room |
| Bufferpool.BufferPool.ReleaseRef | ref.go:90-94 | the first release behaves as Put of the handle's buffer: the queue gains one prepared buffer exactly when Put keeps it; a later release changes nothing |
| Bufferpool.BufferPool.Len | bufferpool.go:87-89 | the number of queued buffers never exceeds Cap |
| Bufiopool.NewReaderSize | bufiopool.go:61-72 | `bufio.NewReaderSize(nil, n)` makes a detached reader of size n, or 16 when n is smaller |
| Bufiopool.NewWriterSize | bufiopool.go:156-167 | `bufio.NewWriterSize(nil, n)` makes a detached writer of size n, or 4096 when n is 0 |
| Bufiopool.AdmissibleModes | bufiopool.go:74-97 | a non-strict pool keeps any size from bufSize up; a strict pool keeps exactly bufSize |
| Bufiopool.BufioReaderPool.constructor | bufiopool.go:26-42 | capacity, bufSize and strictness as given; preloaded with min(preloadSize, poolSize) fresh readers when Put keeps one |
| Bufiopool.BufioReaderPool.Preload | bufiopool.go:52-59 | the queue afterwards equals `SendAll` of preloadSize fresh readers, or is unchanged when Put keeps none |
| Bufiopool.BufioReaderPool.Get | bufiopool.go:61-72 | the oldest queued reader, or a fresh one of size bufSize, reset onto the caller's source; a queued reader has an admissible size |
| Bufiopool.BufioReaderPool.GetRef | bufiopool.go:44-50 | Get, wrapped in a fresh open handle bound to this pool |
| Bufiopool.BufioReaderPool.Put | bufiopool.go:74-97 | the reader is always detached from its source; it is enqueued exactly when its size is admissible and there is room |
| Bufiopool.BufioReaderPool.ReleaseRef | ref.go:122-126 | the first release behaves as Put of the handle's reader; a later one changes nothing |
| Bufiopool.BufioReaderPool.Len | bufiopool.go:99-101 | the number of queued readers never exceeds Cap |
| Bufiopool.NewBufioReaderPool | bufiopool.go:18-20 | a non-strict 4096-byte pool; preload fills min(preloadSize, poolSize) slots |
| Bufiopool.NewBufioReaderSizePool | bufiopool.go:22-24 | a strict pool of the given size; preload fills nothing when bufSize is below bufio's 16-byte minimum |
| Bufiopool.BufioWriterPool.constructor | bufiopool.go:121-137 | as for readers, with writers |
| Bufiopool.BufioWriterPool.Preload | bufiopool.go:147-154 | the queue afterwards equals `SendAll` of preloadSize fresh writers, or is unchanged when Put keeps none |
| Bufiopool.BufioWriterPool.Get | bufiopool.go:156-167 | the oldest queued writer, or a fresh one of size bufSize, reset onto the caller's destination |
| Bufiopool.BufioWriterPool.GetRef | bufiopool.go:139-145 | Get, wrapped in a fresh open handle bound to this pool |
| Bufiopool.BufioWriterPool.Put | bufiopool.go:169-192 | the writer is always detached; it is enqueued exactly when its size is admissible and there is room |
| Bufiopool.BufioWriterPool.ReleaseRef | ref.go:154-158 | the first release behaves as Put of the handle's writer; a later one changes nothing |
| Bufiopool.BufioWriterPool.Len | bufiopool.go:194-196 | the number of queued writers never exceeds Cap |
| Bufiopool.NewBufioWriterPool | bufiopool.go:113-115 | a non-strict 4096-byte pool; preload fills min(preloadSize, poolSize) slots |
| Bufiopool.NewBufioWriterSizePool | bufiopool.go:117-119 | a strict pool of the given size; preload fills nothing when bufSize is 0 |
| BytepoolMmap.MmapAlign | bytepool_mmap.go:15-17 | `((size + align) >> 3) << 3` is the largest multiple of 8 not above size + align |
| BytepoolMmap.DefaultMmapAlign | bytepool_mmap.go:19-22 | the aligned size is a multiple of 8, strictly above the buffer size and at most 8 above it |
| BytepoolMmap.DefaultMmapAlignExamples | bytepool_mmap.go:15-22 | 12 aligns to 16, 7 to 8, and 16 to 24 |
| BytepoolMmap.SpanIsProduct | bytepool_mmap.go:49-61 | carving a preload region chunk by chunk consumes exactly alignSize × preloadSize bytes, the size the region is mapped with |
| BytepoolMmap.MmapBytePool.constructor | bytepool_mmap.go:30-47 | alignSize is `defaultMmapAlign(bufSize)`; with preload set, min(preloadSize, poolSize) chunks are queued |
| BytepoolMmap.MmapBytePool.Preload | bytepool_mmap.go:49-61 | carving a region of preloadSize chunks queues min(preloadSize, room) chunks and unmaps the rest; with no capacity nothing happens |
| BytepoolMmap.MmapBytePool.Get | bytepool_mmap.go:71-84 | the result always has length bufSize and capacity alignSize; the oldest queued slice is dequeued when there is one |
| BytepoolMmap.MmapBytePool.GetRef | bytepool_mmap.go:63-69 | Get, wrapped in a fresh open handle bound to this pool |
| BytepoolMmap.MmapBytePool.Put | bytepool_mmap.go:86-101 | only a capacity of exactly alignSize is kept; a full queue unmaps such a slice, and any other capacity is dropped without unmapping |
| BytepoolMmap.MmapBytePool.GetPutRoundTrip | bytepool_mmap.go:71-101 | `Put(Get())` always succeeds in a pool with capacity: a queued slice rotates to the back; without capacity the fresh mapping is unmapped again |
| BytepoolMmap.MmapBytePool.ReleaseRef | ref.go:58-62 | the first release behaves as Put of the handle's slice, unmapping included; a later one changes nothing |
| BytepoolMmap.MmapBytePool.Len | bytepool_mmap.go:103-105 | the number of queued slices never exceeds Cap |
| Imagepool.ImageRGBAStride | imagepool.go:273-275 | the stride of a well-formed rectangle is a non-negative multiple of 4 |
| Imagepool.RGBALength | imagepool.go:39-45 | the pix length is the stride times the height, never negative |
| Imagepool.YuvSize | imagepool.go:156-165 | 4:4:4 chroma planes have the luma size; 4:2:0 chroma sizes are non-negative and at most half the luma size plus one sample |
| Imagepool.YCbCrLayout | imagepool.go:188-204 | the pix length is the last plane offset, the two chroma planes are the same size, the luma stride is the width and the chroma stride is the chroma width |
| Imagepool.YuvSize420AtOrigin | imagepool.go:156-165 | at the origin the 4:2:0 chroma plane is ceil(w/2) by ceil(h/2) |
| Imagepool.YCbCrLayoutOrdered | imagepool.go:188-204 | 0 <= i0 <= i1 <= i2 == length; luma takes w*h bytes, each chroma plane cw*ch; the strides are w and cw |
| Imagepool.YCbCrImage | imagepool.go:214-226 | the three plane views together span exactly i2 bytes |
| Imagepool.YCbCrPlanesPartition | imagepool.go:214-226 | the Y, Cb and Cr views are pairwise disjoint, start at 0, end at length, and cover it |
| Imagepool.YCbCrHundredSquare | imagepool.go:188-204 | a 100x100 picture has 50x50 chroma planes: offsets 10000, 12500 and 15000 |
| Imagepool.ImageRGBAPool.constructor | imagepool.go:20-45 | stride 4*Dx and length 4*Dx*Dy from `init`; with preload set, min(preloadSize, poolSize) fresh pix slices are queued |
| Imagepool.ImageRGBAPool.Preload | imagepool.go:69-76 | the queue afterwards equals `SendAll` of preloadSize fresh pix slices |
| Imagepool.ImageRGBAPool.GetRef | imagepool.go:57-67 | an image of this pool's format, stride and rectangle over the oldest queued pix (or a fresh one of exactly length bytes), in an open handle |
| Imagepool.ImageRGBAPool.Put | imagepool.go:78-92 | succeeds exactly when the capacity covers length and there is room; then `pix[:length]` is appended |
| Imagepool.ImageRGBAPool.ReleaseRef | ref.go:187-191 | the first release behaves as Put of the backing pix slice; a later one changes nothing |
| Imagepool.ImageRGBAPool.Len | imagepool.go:94-96 | the number of queued pix slices never exceeds Cap |
| Imagepool.ImageYCbCrPool.constructor | imagepool.go:188-204 | the plane offsets, strides and length are those of the 4:2:0 layout of the rectangle; preload as for RGBA |
| Imagepool.ImageYCbCrPool.YStride | imagepool.go:206-208 | sets the luma stride |
| Imagepool.ImageYCbCrPool.UVStride | imagepool.go:210-212 | sets the chroma stride |
| Imagepool.ImageYCbCrPool.Preload | imagepool.go:240-247 | the queue afterwards equals `SendAll` of preloadSize fresh pix slices |
| Imagepool.ImageYCbCrPool.CreateRef | imagepool.go:214-226 | the image's planes are the pool's layout cut from the given pix, in an open handle bound to the pool |
| Imagepool.ImageYCbCrPool.GetRef | imagepool.go:228-238 | the oldest queued pix (or a fresh one of exactly length bytes), carved into the pool's three planes |
| Imagepool.ImageYCbCrPool.Put | imagepool.go:249-263 | succeeds exactly when the capacity covers length and there is room; then `pix[:length]` is appended |
| Imagepool.ImageYCbCrPool.ReleaseRef | ref.go:255-259 | the first release hands back the backing pix slice, not the plane views; a later one changes nothing |
| Imagepool.ImageYCbCrPool.Len | imagepool.go:265-267 | the number of queued pix slices never exceeds Cap |
| Imagepool.NewImageYCbCrPool | imagepool.go:167-186 | every ratio other than 4:2:0 is refused (the panic), and 4:2:0 yields a valid pool of the layout's length |
| Buckets.FirstFit | mbytepool.go:34-41 | the chosen bucket is the first whose size is at least the request; there is none exactly when every bucket is smaller |
| Buckets.Scan | mbufferpool.go:80-87 | the `range` loop returns exactly `FirstFit` |
| Buckets.FirstFitUnique | mbytepool.go:34-41 | a bucket that fits, with every earlier bucket too small, is the one chosen |
| Buckets.FirstFitRoundTrip | mbytepool.go:34-41 | routing a chosen bucket's own size picks that bucket again |
| Buckets.FirstFitNoneOnAscending | mbytepool.go:34-41 | on ascending buckets, a request fits nowhere exactly when it exceeds the last bucket |
| Buckets.FirstWithKey | mbufferpool.go:38-51 | the first position holding a key, or none exactly when no element has it |
| Buckets.KeepFirstSpec | mbufferpool.go:38-51 | the de-duplication map holds exactly the keys present, each mapped to the first tuple with that key |
| Buckets.KeepFirstKeys | mbufferpool.go:38-51 | every stored tuple sits under its own key and is one of the given tuples, and every given key is stored |
| Buckets.UniqBy | mbufferpool.go:38-51 | `uniq*Tuple` yields one tuple per key, each the first given with that key, and as many as the map has keys |
| Buckets.PermutedFirsts | mbufferpool.go:58-78 | sorting the de-duplicated tuples keeps them one per key, each still the first given |
| Buckets.KeepFirstSize | mbufferpool.go:38-51 | de-duplication never yields more tuples than were given |
| Buckets.DistinctKeysPermutation | mbufferpool.go:58-78 | reordering cannot make two tuples share a key |
| Sorting.LeTotal | mimagepool.go:243-250 | the `less` order on (Dx, Dy) is total and antisymmetric |
| Sorting.SortBy | mimagepool.go:243-250 | `sort.Slice` leaves the same elements (a permutation), in key order |
| Sorting.SortedUnique | mimagepool.go:243-250 | with no key twice, sorting has exactly one possible outcome |
| Mbytepool.SortedBufSizes | mbytepool.go:20-32 | after the constructor's sort, bucket sizes ascend |
| Mbytepool.OversizeRelease | mbytepool.go:43-55 | a fresh slice too big for every bucket is later kept by the last bucket exactly when it is within that bucket's maxBufSize |
| Mbytepool.MultiBytePool.constructor | mbytepool.go:20-32 | the caller's tuple array is sorted in place (a permutation), and one BytePool is built per tuple, duplicates included; with preload set, each bucket holds min(preloadSize(poolSize), poolSize) fresh slices when its Put keeps one, otherwise none |
| Mbytepool.MultiBytePool.Find | mbytepool.go:34-41 | `find` returns exactly the first-fit bucket |
| Mbytepool.MultiBytePool.Get | mbytepool.go:57-63 | a slice of the requested length, with the chosen bucket's capacity or a fresh allocation; only the chosen bucket changes |
| Mbytepool.MultiBytePool.GetRef | mbytepool.go:43-55 | as Get, in a handle bound to the chosen bucket, or to the last bucket when none fits |
| Mbytepool.MultiBytePool.Put | mbytepool.go:65-71 | routed by capacity; the chosen bucket's Put decides; a slice with no bucket is discarded; no other bucket changes |
| Mbufferpool.StrictlyAscending | mbufferpool.go:58-78 | de-duplicated, sorted tuples have strictly ascending bufSizes |
| Mbufferpool.FirstFitOnStrict | mbufferpool.go:80-87 | on strictly ascending buckets, the chosen bucket fits while the previous one does not; none fits exactly when the request exceeds the last |
| Mbufferpool.SortedUniq | mbufferpool.go:58-78 | the constructor's tuples ascend strictly and are the first given for each bufSize |
| Mbufferpool.BuildPools | mbufferpool.go:58-78 | one distinct, new, empty BufferPool per tuple, in tuple order, with the tuple's size and capacity |
| Mbufferpool.MultiBufferPool.constructor | mbufferpool.go:58-78 | one bucket per distinct bufSize (the first tuple wins), in ascending order |
| Mbufferpool.MultiBufferPool.Find | mbufferpool.go:80-87 | `find` returns exactly the first-fit bucket |
| Mbufferpool.MultiBufferPool.Get | mbufferpool.go:103-108 | the chosen bucket's Get, or a fresh buffer of the requested capacity; only the chosen bucket changes |
| Mbufferpool.MultiBufferPool.GetRef | mbufferpool.go:89-101 | as Get, in a handle bound to the chosen bucket, or to the last bucket when none fits |
| Mbufferpool.MultiBufferPool.Put | mbufferpool.go:110-116 | routed by `Cap()`; the chosen bucket's Put decides and, when it keeps the buffer, queues it prepared; no bucket means discarded; no other bucket changes |
| MbytepoolMmap.OversizeNeverAdmitted | mbytepool_mmap.go:23-36 | a fresh slice too big for every bucket never has the last bucket's aligned capacity, so its release is always discarded |
| MbytepoolMmap.WorkedAlignRouting | mbytepool_mmap_test.go:53-91 | bufSizes 7, 16 and 24 give buckets 8, 24 and 32: requests 1 and 8 go to the first, 9 and 16 to the second, and 1024 nowhere |
| MbytepoolMmap.BuildPools | mbytepool_mmap.go:108-111 | one new MmapBytePool per tuple, pairwise distinct objects, in tuple order, each preloaded as `NewMmapBytePool` preloads |
| MbytepoolMmap.SortByAlign | mbytepool_mmap.go:112-114 | `sort.Slice` leaves the same buckets (a permutation), in alignSize order |
| MbytepoolMmap.SortedPools | mbytepool_mmap.go:84-118 | after de-duplication and the sort, no two buckets share a bufSize, every bufSize given has a bucket, and each bucket is built from the first tuple given for it |
| MbytepoolMmap.MultiMmapBytePool.constructor | mbytepool_mmap.go:84-118 | exactly one bucket per distinct bufSize given (no bufSize twice, none missing, the first tuple wins), sorted by aligned size; with preload set, each bucket holds min(preloadSize(poolSize), poolSize) fresh chunks, otherwise none |
| MbytepoolMmap.MultiMmapBytePool.Find | mbytepool_mmap.go:14-21 | `find` returns exactly the first bucket whose alignSize (not bufSize) fits |
| MbytepoolMmap.MultiMmapBytePool.Get | mbytepool_mmap.go:38-44 | a slice of the requested length, from the chosen bucket or freshly made; only the chosen bucket changes, and nothing is unmapped |
| MbytepoolMmap.MultiMmapBytePool.GetRef | mbytepool_mmap.go:23-36 | as Get, in a handle bound to the chosen bucket, or to the last bucket when none fits |
| MbytepoolMmap.MultiMmapBytePool.Put | mbytepool_mmap.go:46-52 | routed by capacity; the chosen bucket's Put decides, unmapping included; no other bucket changes |
| Mimagepool.RGBALengthMonotone | mimagepool.go:26-40 | a bucket at least as wide and tall as the request needs at least as many bytes, and has at least as large a stride |
| Mimagepool.RectInIgnoresPosition | mimagepool.go:271-276 | `rectIn` compares sizes only: moving the request anywhere never changes the answer |
| Mimagepool.FirstDominating | mimagepool.go:13-24 | the chosen bucket is the first at least as wide and as tall as the request; there is none exactly when no bucket is |
| Mimagepool.ScanDominating | mimagepool.go:13-24 | the `range` loop returns exactly `FirstDominating` |
| Mimagepool.FirstHolding | mimagepool.go:147-154 | the corrected YCbCr choice: the first bucket that dominates the request and whose pix holds the request's planes |
| Mimagepool.ScanHolding | mimagepool.go:147-154 | the corrected scan returns exactly `FirstHolding` |
| Mimagepool.AnchoredChromaMonotone | imagepool.go:156-165 | at the origin, the 4:2:0 chroma sizes grow with width and height |
| Mimagepool.AnchoredLayoutMonotone | mimagepool.go:180-195 | at the origin, a dominating bucket always holds the request's planes |
| Mimagepool.FindsAgreeWhenAnchored | mimagepool.go:147-154 | for origin-anchored buckets and requests, the corrected and the original YCbCr `find` choose the same bucket |
| Mimagepool.OverrunBucketLayout | imagepool.go:188-204 | a 2x2 bucket at the origin holds 6 bytes |
| Mimagepool.OverrunRequestLayout | mimagepool.go:180-195 | `adjust` lays a 2x2 request at (1, 1) out as offsets 4, 8 and 12 |
| Mimagepool.YCbCrFindOverrun | mimagepool.go:147-154 | the original `find` picks a bucket whose pix ends before the request's planes; the corrected one refuses it |
| Mimagepool.WorkedRouting | mimagepool_test.go:60-102 | with buckets 360x640, 640x360 and 1280x720, requests are routed as the test expects: 100x100 and 360x120 to the first, 640x320 to the second, 360x700 and 768x432 to the third, 1920x1080 nowhere |
| Mimagepool.OversizeRelease | mimagepool_test.go:103-140 | 1920x1080 needs at least the 1280x720 bucket's bytes, so its release is kept there; a 2000x10 request has no bucket and needs fewer bytes, so its release is discarded |
| Mimagepool.WorkedSort | mimagepool_test.go:9-34 | the five test rectangles can only sort to 360x640, 640x360, 640x640, 720x1280, 1280x720 |
| Mimagepool.BuildRGBAPools | mimagepool.go:252-269 | one new, valid pool per tuple, of the router's format, with the tuple's rectangle and size, each preloaded as a single pool is |
| Mimagepool.BuildYCbCrPools | mimagepool.go:127-145 | one new, valid 4:2:0 pool per tuple, with the tuple's rectangle and size, each preloaded as a single pool is |
| Mimagepool.UniqSortTuples | mimagepool.go:228-250 | one tuple per rectangle, the first given, in (Dx, Dy) order |
| Mimagepool.KeptTuplesGiven | mimagepool.go:228-241 | every tuple that survives de-duplication was given |
| Mimagepool.MultiImageRGBAPool.constructor | mimagepool.go:252-269 | one bucket per distinct rectangle, sorted, each the first tuple given for it; with preload set, each bucket holds min(preloadSize(poolSize), poolSize) fresh pix slices, otherwise none |
| Mimagepool.MultiImageRGBAPool.Find | mimagepool.go:13-24 | nothing for an empty rectangle; otherwise exactly `FirstDominating` |
| Mimagepool.MultiImageRGBAPool.Adjust | mimagepool.go:50-53 | the image now describes the request's rectangle, with its stride; the pix is unchanged |
| Mimagepool.MultiImageRGBAPool.GetRef | mimagepool.go:26-40 | an image of the request over a pix with at least the request's bytes, from the chosen bucket; with no bucket, a fresh pix bound to the last bucket; no other bucket changes |
| Mimagepool.MultiImageRGBAPool.Put | mimagepool.go:42-48 | routed by rectangle; the chosen bucket's Put decides; no bucket means discarded |
| Mimagepool.MultiImageYCbCrPool.constructor | mimagepool.go:127-145 | one 4:2:0 bucket per distinct rectangle, sorted, each the first tuple given for it; with preload set, each bucket holds min(preloadSize(poolSize), poolSize) fresh pix slices, otherwise none |
| Mimagepool.MultiImageYCbCrPool.Find | mimagepool.go:147-154 | the corrected `find`: exactly `FirstHolding` |
| Mimagepool.MultiImageYCbCrPool.Adjust | mimagepool.go:180-195 | the request's Y, Cb and Cr planes are cut from the front of the pix, with its rectangle and strides; the planes must end within the pix |
| Mimagepool.MultiImageYCbCrPool.GetRef | mimagepool.go:156-170 | a 4:2:0 image of the request whose planes lie inside the pix, from the chosen bucket or freshly made; no other bucket changes |
| Mimagepool.MultiImageYCbCrPool.Put | mimagepool.go:172-178 | routed by the corrected `find`; the chosen bucket's Put decides; no bucket means discarded |

## Left out

- Concurrency is not modelled. The channel operations, the handles' compare-and-swap and the finalizers that release a lost handle are all sequential here.
- Pools' `Cap()` needs no contract: it returns the fixed `capacity`. Neither does `Refs.ImageRef.Image`, which returns the descriptor field `Img`.
- Bufferpool.BufferPool.Put, Bufferpool.BufferPool.ReleaseRef and Mbufferpool.MultiBufferPool.Put do not fix the capacity a small buffer is grown to. `Buffer.Grow` leaves it to Go's runtime: a nil buffer asked for at most 64 bytes gets 64, and a larger allocation is rounded up to a size class. The model allows any capacity with room for the content plus bufSize (`Bufferpool.Grown`).
- Standard-library internals are reduced to what the pools observe:
  - `bytes.Buffer`, `bufio.Reader` and `bufio.Writer` are value records;
  - `Reset(r)` on a reader or writer only changes which stream it is attached to. The exception is a zero-value `bufio.Reader` or `bufio.Writer`, which Go's `Reset` gives a 4096-byte buffer: Go's Put then sees size 4096, while the model's Put sees size 0 and rejects it.
- The bytes in slices and buffers are not modelled.
- Aliasing is not modelled. Go's Put mutates the caller's `*bytes.Buffer` or `*bufio.Reader`; here Put returns that new state as `after`. Likewise, callers can change a handle's slice, buffer or reader through its exported field, and Go's `Release` puts the object as it is at release time (a buffer grown past maxBufSize is then rejected). The model's handle always forwards the object as it was issued.
- `unix.Mmap` and `unix.Munmap` are not called. A mapping is a fresh `Bytes`, its failure fallback to `make` looks the same, and the ghost sequence `Unmapped` records every slice handed to `Munmap`.
- Float options are integer parameters:
  - `maxBufSizeFactor` and `preloadRate` enter as the computed values `computedMax` and `preloadSize`;
  - the defaults 1.25 and 0.25 are `Options.DefaultMaxBufSize` and `Options.DefaultPreloadSize`.
- `AutoGrow` and calibrator.go are not part of this model. The buffer pool's `calibrate` hook does nothing in this source; it reads an `opt.calibrator` field that option.go does not declare.
- timepool.go, copy.go and bp.go's interfaces are not part of this model.
- Sizes and pool sizes are `nat`: Go's behaviour on negative sizes (a `make` panic) is not modelled.
- Go map iteration order in `uniq*Tuple` is not modelled. `Buckets.UniqBy` emits keys in an unspecified order, and every router sorts afterwards. Two routers can see this order. The image routers see it for distinct rectangles of equal size. The mmap router sees it for distinct bufSizes with the same aligned size (9 and 10 both align to 16); there the map order and the unstable `sort.Slice` decide which bucket `find` picks and `Put` fills. The contracts of all these routers hold for any order.
- The image routers' de-duplication key `rect.String()` is rectangle equality, since that string spells out all four coordinates.
- `ImageNRGBAPool`, its handle and `MultiImageNRGBAPool` share the RGBA classes, told apart by `format`; their source is the same code with another image type.
- The YCbCr router's fresh-image path builds a throw-away pool to compute the layout; here the layout comes straight from `YCbCrLayout`.
- Mimagepool.MultiImageRGBAPool.GetRef and Mimagepool.MultiImageYCbCrPool.GetRef require at least one bucket and a well-formed rectangle. The source indexes `pools[len(pools)-1]` on the fallback path and panics with no bucket; `image.Rect` always yields a well-formed rectangle.
- Mbytepool.MultiBytePool.GetRef, Mbufferpool.MultiBufferPool.GetRef and MbytepoolMmap.MultiMmapBytePool.GetRef require at least one bucket for the same reason.
- Mimagepool.MultiImageYCbCrPool.GetRef routes by the corrected `find` (see Findings), not by the source's. Away from the origin, Go can pick a dominating bucket whose queued pix has enough spare capacity for the request's planes; Go then succeeds, while the model may pick a later bucket or make a fresh pix.
- Mimagepool.MultiImageYCbCrPool.Put routes by the corrected `find` too. Go's Put never panics: with the one bucket `image.Rect(0, 0, 2, 2)`, it keeps a 12-byte pix released for `image.Rect(1, 1, 3, 3)`, which the model discards.
- Mimagepool.MultiImageYCbCrPool.constructor requires the 4:2:0 ratio whenever there is a bucket, because `NewImageYCbCrPool` panics otherwise.
- Where the documentation and the code differ, the model follows the code:
  - `uniq*Tuple` keeps the FIRST tuple given for a key;
  - `BufferPool` preload queues nothing;
  - `mmapAlign` adds a full 8 bytes to a size that is already aligned (16 becomes 24);
  - the mmap router routes by `alignSize`;
  - `NewMultiBytePool` takes the caller's tuple slice, sorts it in place and does not de-duplicate.
- A released RGBA or NRGBA image larger than every bucket is kept by the last bucket only when its pix is at least that bucket's length. A request at least as large on both axes always passes (`Mimagepool.RGBALengthMonotone`), but one that is wide and short does not (`Mimagepool.OversizeRelease`).

## Findings

| source | as written | input that shows it | evidently intended | confidence | as-written member | corrected member |
|---|---|---|---|---|---|---|
| mimagepool.go:147-154 | The YCbCr router's `find` picks the first bucket at least as wide and as tall as the request. It ignores where the request lies, yet `adjust` (mimagepool.go:180-195) lays the 4:2:0 planes out from the request's own coordinates | one bucket `image.Rect(0, 0, 2, 2)` (6-byte pix); request `image.Rect(1, 1, 3, 3)`, whose planes lie at offsets 4, 8 and 12. With the bucket's fresh 6-byte pix (any pix of capacity below 8), `adjust`'s Cb slice `pix[4:8:8]` (mimagepool.go:189) is already past the capacity and panics | choose only a bucket whose pix holds the request's planes; on origin-anchored rectangles this is the same bucket as before (`Mimagepool.FindsAgreeWhenAnchored`) | not executed | Mimagepool.YCbCrFindOverrun | Mimagepool.MultiImageYCbCrPool.Find |

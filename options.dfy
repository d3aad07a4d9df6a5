/** The two numeric option defaults the pools read, in integer form, and the fallback the
    byte and buffer pools apply to the computed maximum size. */
module Options {

  /** `int(1.25 * float64(bufSize))` with the default factor 1.25. The factor is exact in binary
      floating point, so for a non-negative size the conversion truncates the exact product. */
  function DefaultMaxBufSize(bufSize: nat): (m: nat)
    ensures 4 * m <= 5 * bufSize < 4 * m + 4
    ensures bufSize <= m
  {
    bufSize * 5 / 4
  }

  /** `int(float64(cap(pool)) * 0.25)` with the default preload rate. */
  function DefaultPreloadSize(capacity: nat): (n: nat)
    ensures 4 * n <= capacity < 4 * n + 4
  {
    capacity / 4
  }

  /** The constructors replace a computed maximum below 1 by bufSize. */
  function EffectiveMaxBufSize(computed: int, bufSize: nat): int
  {
    if computed < 1 then bufSize else computed
  }

  /** With the default factor the effective maximum is `int(1.25 * bufSize)` itself, never the
      fallback, and it exceeds bufSize exactly when bufSize is at least 4: below that the
      truncation leaves no headroom at all. */
  lemma DefaultEffectiveMax(bufSize: nat)
    ensures bufSize >= 1 ==> EffectiveMaxBufSize(DefaultMaxBufSize(bufSize), bufSize) == DefaultMaxBufSize(bufSize)
    ensures EffectiveMaxBufSize(DefaultMaxBufSize(bufSize), bufSize) >= bufSize
    ensures EffectiveMaxBufSize(DefaultMaxBufSize(bufSize), bufSize) > bufSize <==> bufSize >= 4
  {
    var m := DefaultMaxBufSize(bufSize);
    assert 4 * m <= 5 * bufSize < 4 * m + 4;
  }

  /** A pool of capacity 12 preloaded at the default rate holds 3 objects. */
  lemma DefaultPreloadOfTwelve()
    ensures DefaultPreloadSize(12) == 3
  {
  }
}

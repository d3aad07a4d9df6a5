/** The buffered Go channel every pool is built on (`make(chan T, poolSize)`), used only through
    non-blocking `select` statements. Its content is the sequence of queued values, oldest first. */
module Chan {

  function Min(a: int, b: int): (m: int)
    ensures m <= a && m <= b && (m == a || m == b)
  {
    if a <= b then a else b
  }

  /** `select { case ch <- x: default: }`: x joins the queue when there is room, else is dropped. */
  function Send<T>(q: seq<T>, capacity: nat, x: T): seq<T>
  {
    if |q| < capacity then q + [x] else q
  }

  /** Several non-blocking sends in a row, as `preload` performs them. */
  function SendAll<T>(q: seq<T>, capacity: nat, xs: seq<T>): seq<T>
    decreases |xs|
  {
    if xs == [] then q else SendAll(Send(q, capacity, xs[0]), capacity, xs[1..])
  }

  /** n copies of x. */
  function Repeat<T>(x: T, n: nat): (r: seq<T>)
    ensures |r| == n && forall i :: 0 <= i < n ==> r[i] == x
  {
    if n == 0 then [] else Repeat(x, n - 1) + [x]
  }

  /** Sending one more value after a run of sends is the same as one longer run. */
  lemma {:induction false} SendAllSnoc<T>(q: seq<T>, capacity: nat, xs: seq<T>, x: T)
    ensures SendAll(q, capacity, xs + [x]) == Send(SendAll(q, capacity, xs), capacity, x)
    decreases |xs|
  {
    if xs == [] {
      assert SendAll(Send(q, capacity, x), capacity, []) == Send(q, capacity, x);
      assert ([] + [x])[1..] == [];
    } else {
      assert (xs + [x])[0] == xs[0];
      assert (xs + [x])[1..] == xs[1..] + [x];
      SendAllSnoc(Send(q, capacity, xs[0]), capacity, xs[1..], x);
    }
  }

  /** A run of non-blocking sends keeps exactly the values that fit: the queue never grows beyond
      its capacity, and what was already queued stays in front, in order. */
  lemma {:induction false} SendAllKeepsPrefix<T>(q: seq<T>, capacity: nat, xs: seq<T>)
    requires |q| <= capacity
    ensures Min(|xs|, capacity - |q|) >= 0
    ensures SendAll(q, capacity, xs) == q + xs[..Min(|xs|, capacity - |q|)]
    ensures |SendAll(q, capacity, xs)| == Min(|q| + |xs|, capacity)
    decreases |xs|
  {
    if xs == [] {
    } else if |q| < capacity {
      SendAllKeepsPrefix(q + [xs[0]], capacity, xs[1..]);
      var k := Min(|xs[1..]|, capacity - |q| - 1);
      assert q + [xs[0]] + xs[1..][..k] == q + xs[..k + 1];
    } else {
      SendAllKeepsPrefix(q, capacity, xs[1..]);
    }
  }

  /** Once the queue is full, no further send changes it. */
  lemma {:induction false} SendAllWhenFull<T>(q: seq<T>, capacity: nat, xs: seq<T>)
    requires |q| >= capacity
    ensures SendAll(q, capacity, xs) == q
    decreases |xs|
  {
    if xs != [] {
      SendAllWhenFull(q, capacity, xs[1..]);
    }
  }

  /** Preloading n equal values into a queue yields min(n, room) more copies of it. */
  lemma SendAllRepeat<T>(q: seq<T>, capacity: nat, x: T, n: nat)
    requires |q| <= capacity
    ensures SendAll(q, capacity, Repeat(x, n)) == q + Repeat(x, Min(n, capacity - |q|))
  {
    SendAllKeepsPrefix(q, capacity, Repeat(x, n));
    assert Repeat(x, n)[..Min(n, capacity - |q|)] == Repeat(x, Min(n, capacity - |q|));
  }
}

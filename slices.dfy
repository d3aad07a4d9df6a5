/** Values the pools hand out and take back, reduced to what the pools look at. */
module Slices {

  datatype Option<+T> = None | Some(value: T)

  /** A Go `[]byte` slice header: its length and its capacity. The bytes themselves are never
      inspected by the pools, so they are not part of the model. */
  datatype Bytes = Bytes(len: nat, cap: nat)

  /** `make([]byte, n)` */
  function Make(n: nat): Bytes
  {
    Bytes(n, n)
  }

  /** `s[:n]`: same backing array and capacity, new length (Go panics unless n <= cap(s)). */
  function Reslice(s: Bytes, n: nat): Bytes
    requires n <= s.cap
  {
    Bytes(n, s.cap)
  }

  /** `s[:n:m]`: length n, capacity m (Go panics unless n <= m <= cap(s)). */
  function Reslice3(s: Bytes, n: nat, m: nat): Bytes
    requires n <= m <= s.cap
  {
    Bytes(n, m)
  }

  /** `s[k:]`: drops the first k bytes from both length and capacity. */
  function Advance(s: Bytes, k: nat): Bytes
    requires k <= s.len <= s.cap
  {
    Bytes(s.len - k, s.cap - k)
  }
}

/** The part of Go's `image.Rectangle` the pixel pools use, and Go's integer halving. */
module Geometry {

  /** `image.Rectangle{Min, Max}`: the points (x, y) with minX <= x < maxX and minY <= y < maxY. */
  datatype Rectangle = Rect(minX: int, minY: int, maxX: int, maxY: int)
  {
    /** `Dx` */
    function Dx(): int
    {
      maxX - minX
    }

    /** `Dy` */
    function Dy(): int
    {
      maxY - minY
    }

    /** `Empty`: the rectangle contains no points. */
    predicate Empty()
    {
      minX >= maxX || minY >= maxY
    }

    /** What `image.Rect` always produces: Min is not past Max on either axis. */
    predicate WellFormed()
    {
      minX <= maxX && minY <= maxY
    }

    /** Both corners at non-negative coordinates. */
    predicate NonNegative()
    {
      WellFormed() && 0 <= minX && 0 <= minY
    }
  }

  /** `image.Rect(0, 0, w, h)` */
  function Origin(w: nat, h: nat): (r: Rectangle)
    ensures r.WellFormed() && r.NonNegative() && r.Dx() == w && r.Dy() == h
  {
    Rect(0, 0, w, h)
  }

  /** Go's `a / 2` on `int`, which truncates toward zero (Dafny's `/` rounds down instead). */
  function Half(a: int): int
  {
    if a >= 0 then a / 2 else -((-a) / 2)
  }

  /** Halving is monotone, so Go's chroma sizes are never negative on a well-formed rectangle. */
  lemma HalfMonotone(a: int, b: int)
    requires a <= b
    ensures Half(a) <= Half(b)
  {
  }

  /** Products of non-negative sizes grow with their factors. */
  lemma MulMonotone(a: int, b: int, c: int, d: int)
    requires 0 <= a <= c && 0 <= b <= d
    ensures 0 <= a * b <= c * d
  {
    assert a * b <= c * b;
    assert c * b <= c * d;
  }
}

/** What the two drag-to-position editors share: rounding as `Math.round`
    does it, the clamp they apply to a dropped position, and their inclusive
    hit test against the on-screen rectangle of the image. */
module MouseDrag {
  import opened Vectors

  /** `Math.round`: the nearest integer, halves rounded up (toward +inf). */
  function Round(r: real): (n: int)
    ensures n as real - 0.5 <= r < n as real + 0.5
  {
    (r + 0.5).Floor
  }

  /** v brought into [lo, hi]: unchanged when already inside, otherwise the
      nearer end. */
  function Clamp(v: real, lo: real, hi: real): (r: real)
    requires lo <= hi
    ensures lo <= r <= hi
    ensures lo <= v <= hi ==> r == v
    ensures v < lo ==> r == lo
    ensures hi < v ==> r == hi
  {
    if v < lo then lo else if v > hi then hi else v
  }

  /** Non-negative width and height. */
  predicate NonNegative(s: Size) {
    s.width >= 0.0 && s.height >= 0.0
  }

  /** The hit test: p lies in the rectangle at `pos` of size `size`, edges
      included. */
  predicate InRect(pos: Vec, size: Size, p: Vec)
    ensures InRect(pos, size, p) <==>
      (0.0 <= p.x - pos.x <= size.width && 0.0 <= p.y - pos.y <= size.height)
  {
    p.x >= pos.x && p.x <= pos.x + size.width &&
    p.y >= pos.y && p.y <= pos.y + size.height
  }
}

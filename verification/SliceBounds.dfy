/** The bounds of slices in the Python programs. */
module SliceBounds {
  /** A bound of a slice of `n` elements: negative ones count from the end, and all are cut off to the range. */
  function Clamp(i: int, n: nat): (r: nat)
    ensures r <= n
  {
    if i < 0 then (if i + n < 0 then 0 else i + n) else if i > n then n else i
  }
}

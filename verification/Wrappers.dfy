/** Types that every component shares. */
module Wrappers {
  datatype Option<T> = None | Some(value: T)

  type byte = bv8

  /** A counter kept in a byte. */
  function Wrapped(n: nat): (r: nat)
    ensures r <= n && r < 256 && (r == n <==> n <= 255)
  {
    if n < 256 then n else Wrapped(n - 256)
  }
}

/** The few arithmetic functions several components use. */
module Numbers {
  function Min(a: int, b: int): int {
    if a <= b then a else b
  }

  function Max(a: int, b: int): int {
    if a <= b then b else a
  }

  function Pow2(n: nat): (r: nat)
    ensures 1 <= r
  {
    if n == 0 then 1 else 2 * Pow2(n - 1)
  }
}

/** Comparisons that several components share. */
module Numbers {
  function Min(a: int, b: int): int { if a < b then a else b }

  function Max(a: int, b: int): int { if a < b then b else a }

  function Clamp(x: int, low: int, high: int): int { Max(low, Min(x, high)) }
}

// Numbers: the range of a C unsigned int, and small functions.
module Arith {
  const UINT := 0x1_0000_0000

  function Min(a: int, b: int): int { if a < b then a else b }

  function Max(a: int, b: int): int { if a > b then a else b }

  // The next of n places that go round in a circle.
  function Succ(n: int, k: int): int { if k + 1 < n then k + 1 else 0 }
}

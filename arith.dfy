/** Integer helpers for the page arithmetic of the listing, the search and
    the client. */
module Arith {

  function Min(a: int, b: int): int { if a <= b then a else b }

  function Max(a: int, b: int): int { if a >= b then a else b }

  /** `Math.ceil(n / d)` for a positive whole divisor. */
  function CeilDiv(n: nat, d: int): (c: nat)
    requires d >= 1
    ensures c * d >= n
    ensures (c - 1) * d < n
  {
    var c := (n + d - 1) / d;
    assert c * d <= n + d - 1 && c * d > n - 1;
    c
  }
}

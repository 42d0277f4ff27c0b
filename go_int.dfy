/** Go's integer division and remainder, which truncate toward zero
    (Dafny's `/` and `%` are Euclidean). Only the divisor 7 is used by
    the model, but the definitions hold for every positive divisor. */
module GoInt {

  /** `a / b` in Go. */
  function Quot(a: int, b: int): int
    requires b > 0
  {
    if a >= 0 then a / b else -((-a) / b)
  }

  /** `a % b` in Go: its sign is the sign of `a`. */
  function Rem(a: int, b: int): (r: int)
    requires b > 0
    ensures a == Quot(a, b) * b + r
    ensures a >= 0 ==> 0 <= r < b
    ensures a < 0 ==> -b < r <= 0
  {
    if a >= 0 then a % b else -((-a) % b)
  }

  /** Week `q`, day `r`: the key 7q + r splits back into q and r. */
  lemma QuotRemOf7(q: int, r: int)
    requires q >= 0 && 0 <= r < 7
    ensures Quot(7 * q + r, 7) == q && Rem(7 * q + r, 7) == r
  {
  }
}

/** Shared building blocks: optional values, results, ids and small integer helpers. */
module Common {

  /** A value that may be absent: TypeScript's `undefined` / SQL's `NULL`. */
  datatype Option<+T> = None | Some(value: T) {
    function GetOr(default: T): T {
      match this
      case Some(v) => v
      case None => default
    }
  }

  /** The outcome of an operation that can throw. */
  datatype Result<+R, +E> = Success(value: R) | Failure(error: E)

  /** Row identifiers, allocated by the store. */
  type Id = nat

  function Min(a: int, b: int): int {
    if a <= b then a else b
  }

  function Max(a: int, b: int): int {
    if a <= b then b else a
  }

  /** `Math.ceil(n / d)` for a non-negative numerator and a positive divisor:
      the least number of `d`-sized pages that hold `n` items. */
  function CeilDiv(n: nat, d: nat): (q: nat)
    requires d > 0
    ensures q * d >= n
    ensures q == 0 || q * d < n + d
    ensures q == 0 <==> n == 0
  {
    var m := n + d - 1;
    var q := m / d;
    assert m == q * d + m % d && 0 <= m % d < d;
    q
  }
}

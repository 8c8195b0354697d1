// Python's integer operators, written out over Dafny's unbounded integers.
// Dafny's `/` and `%` are Euclidean; Python's `//` and `%` floor. The two agree
// whenever the divisor is positive, and differ for a negative divisor.
module PyInt {

  /** Python `a // b` (floor division). */
  function FloorDiv(a: int, b: int): (q: int)
    requires b != 0
    ensures b > 0 ==> q * b <= a < q * b + b
    ensures b < 0 ==> q * b + b < a <= q * b
  {
    if b > 0 || a % b == 0 then a / b else a / b - 1
  }

  /** Python `a % b`: the remainder takes the sign of the divisor. */
  function FloorMod(a: int, b: int): (r: int)
    requires b != 0
    ensures a == FloorDiv(a, b) * b + r
    ensures b > 0 ==> 0 <= r < b
    ensures b < 0 ==> b < r <= 0
  {
    a - FloorDiv(a, b) * b
  }

  /** For a positive divisor Python's operators are Dafny's. */
  lemma FloorIsEuclidean(a: int, b: int)
    requires b > 0
    ensures FloorDiv(a, b) == a / b && FloorMod(a, b) == a % b
  {
  }

  /** Python `int(v)` on a number: truncation toward zero. */
  function Trunc(v: real): (n: int)
    ensures 0.0 <= v ==> n as real <= v < n as real + 1.0
    ensures v < 0.0 ==> n as real - 1.0 < v <= n as real
  {
    if v >= 0.0 then v.Floor else -((-v).Floor)
  }

  /** `int(v)` is the identity on integral values. */
  lemma TruncOfInt(n: int)
    ensures Trunc(n as real) == n
  {
  }

  /** `a <= b` survives scaling by a non-negative factor. */
  lemma {:induction false} MulMonotone(a: int, b: int, c: nat)
    requires a <= b
    ensures a * c <= b * c
    decreases b - a
  {
    if a < b {
      MulMonotone(a, b - 1, c);
      assert b * c == (b - 1) * c + c;
    }
  }
}

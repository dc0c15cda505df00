/** C integer semantics the player's arithmetic relies on: the ranges of
    `int` and `int64_t`, and C's division and remainder, which truncate
    toward zero (Dafny's own `/` and `%` are Euclidean). */
module CInt {

  const INT32_MIN: int := -0x8000_0000
  const INT32_MAX: int := 0x7fff_ffff
  const INT64_MIN: int := -0x8000_0000_0000_0000
  const INT64_MAX: int := 0x7fff_ffff_ffff_ffff

  predicate IsInt32(x: int) {
    INT32_MIN <= x <= INT32_MAX
  }

  predicate IsInt64(x: int) {
    INT64_MIN <= x <= INT64_MAX
  }

  /** C's `a / b` for a positive divisor: the quotient truncated toward zero. */
  function Div(a: int, b: int): (q: int)
    requires b > 0
    ensures a >= 0 ==> 0 <= q && q * b <= a < (q + 1) * b
    ensures a < 0 ==> q <= 0 && (q - 1) * b < a <= q * b
  {
    if a >= 0 then
      EuclideanBracket(a, b);
      a / b
    else
      EuclideanBracket(-a, b);
      NegatedProduct((-a) / b, b);
      NegatedProduct((-a) / b + 1, b);
      -((-a) / b)
  }

  /** Dafny's quotient of a non-negative number brackets it. */
  lemma EuclideanBracket(n: int, b: int)
    requires n >= 0 && b > 0
    ensures 0 <= n / b && (n / b) * b <= n < (n / b + 1) * b
  {
    var q := n / b;
    assert n == q * b + n % b;
    assert (q + 1) * b == q * b + b;
  }

  lemma NegatedProduct(x: int, b: int)
    ensures (-x) * b == -(x * b)
  {
  }

  /** C's `a % b` for a positive divisor: the remainder takes the sign of `a`,
      and together with `Div` it rebuilds the dividend. */
  function Rem(a: int, b: int): (r: int)
    requires b > 0
    ensures Div(a, b) * b + r == a
    ensures a >= 0 ==> 0 <= r < b
    ensures a < 0 ==> -b < r <= 0
  {
    if a >= 0 then a % b else -((-a) % b)
  }

  /** On non-negative operands C's truncating division coincides with
      Dafny's Euclidean one, and on negative ones it does not in general. */
  lemma DivAgreesOnNonNegative(a: int, b: int)
    requires b > 0
    ensures a >= 0 ==> Div(a, b) == a / b && Rem(a, b) == a % b
    ensures Div(-7, 2) == -3 && -7 / 2 == -4
  {
  }

  /** Quotient and remainder are determined by the division identity and the
      remainder's range. */
  lemma {:induction false} QuotientUnique(a: int, b: int, q: int, r: int)
    requires b > 0 && 0 <= r < b && q * b + r == a
    ensures q == a / b && r == a % b
  {
    var q', r' := a / b, a % b;
    assert q' * b + r' == a;
    if q != q' {
      var d := if q < q' then q' - q else q - q';
      assert d * b == (if q < q' then r - r' else r' - r) by {
        if q < q' {
          assert d * b == q' * b - q * b;
        } else {
          assert d * b == q * b - q' * b;
        }
      }
      AtLeastOneMultiple(d, b);
    }
  }

  /** A positive multiple of `b` is at least `b`. */
  lemma AtLeastOneMultiple(d: int, b: int)
    requires d >= 1 && b > 0
    ensures d * b >= b
  {
  }
}

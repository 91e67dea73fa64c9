/**
 * Machine-number semantics the app relies on, written out over unbounded
 * integers and reals: Kotlin `Int`/`Long` ranges and wrap-around, integer
 * division that truncates toward zero, `Float.toInt()` and `coerceIn(0f, 1f)`.
 * Floating-point values are modelled as reals (no rounding, no NaN).
 */
module Numeric {

  const IntMin: int := -0x8000_0000
  const IntMax: int := 0x7fff_ffff

  /** A Kotlin `Int` value. */
  type Int32 = x: int | -0x8000_0000 <= x <= 0x7fff_ffff

  /** A Kotlin `Long` value. */
  type Int64 = x: int | -0x8000_0000_0000_0000 <= x <= 0x7fff_ffff_ffff_ffff

  predicate IsInt32(x: int) {
    IntMin <= x <= IntMax
  }

  /** Two's-complement reduction to 32 bits: what an `Int` operation or a
      `Long.toInt()` produces from the mathematical value `x`. */
  function Wrap32(x: int): (r: Int32)
    ensures (x - r) % 0x1_0000_0000 == 0
    ensures IsInt32(x) ==> r == x
  {
    (x + 0x8000_0000) % 0x1_0000_0000 - 0x8000_0000
  }

  /** Integer division as Kotlin performs it on `Int` and `Long`: the
      quotient is truncated toward zero (Dafny's own `/` is Euclidean). */
  function TruncDiv(a: int, b: int): (q: int)
    requires b > 0
    ensures a >= 0 ==> q * b <= a < q * b + b
    ensures a < 0 ==> q * b - b < a <= q * b
  {
    if a >= 0 then a / b else -((-a) / b)
  }

  /** Truncation of a real toward zero. */
  function Trunc(r: real): (n: int)
    ensures 0.0 <= r ==> 0 <= n && r - 1.0 < n as real <= r
    ensures r < 0.0 ==> n <= 0 && r <= n as real < r + 1.0
  {
    if r >= 0.0 then r.Floor else -((-r).Floor)
  }

  /** `Float.toInt()`: truncation toward zero, saturated at the `Int` range. */
  function FloatToInt(r: real): (n: Int32)
    ensures IntMin as real <= r <= IntMax as real ==> n == Trunc(r)
    ensures r < IntMin as real ==> n == IntMin
    ensures r > IntMax as real ==> n == IntMax
  {
    var t := Trunc(r);
    if t < IntMin then IntMin else if t > IntMax then IntMax else t
  }

  /** `coerceIn(0f, 1f)`. */
  function Clamp01(r: real): (c: real)
    ensures 0.0 <= c <= 1.0
    ensures 0.0 <= r <= 1.0 ==> c == r
    ensures r < 0.0 ==> c == 0.0
    ensures r > 1.0 ==> c == 1.0
  {
    if r < 0.0 then 0.0 else if r > 1.0 then 1.0 else r
  }

  /** Clamping is monotone. */
  lemma Clamp01Monotone(a: real, b: real)
    requires a <= b
    ensures Clamp01(a) <= Clamp01(b)
  {
  }

  /** Truncation preserves a non-strict order (it is a monotone function). */
  lemma TruncMonotone(a: real, b: real)
    requires a <= b
    ensures Trunc(a) <= Trunc(b)
  {
    if 0.0 <= a {
      assert a.Floor <= b.Floor;
    } else if b < 0.0 {
      assert (-b).Floor <= (-a).Floor;
    }
  }

  /** Truncation returns an integer argument unchanged. */
  lemma TruncOfInt(n: int)
    ensures Trunc(n as real) == n
  {
  }

  /** The product of two non-negative reals is non-negative. */
  lemma MulNonNegative(a: real, b: real)
    requires a >= 0.0 && b >= 0.0
    ensures a * b >= 0.0
  {
  }
}

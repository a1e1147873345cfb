/**
 * The few scalar operations of Python's `math` module and built-ins that the engine uses,
 * over exact reals. `sqrt` and `tan(radians(x))` cannot be defined here, so the model
 * takes them as function-valued parameters; `IsSqrt` is all that is assumed of a square root.
 */
module RealMath {

  /** What a square root must satisfy on the non-negative reals. */
  ghost predicate IsSqrt(sqrt: real -> real)
  {
    forall x :: 0.0 <= x ==> 0.0 <= sqrt(x) && sqrt(x) * sqrt(x) == x
  }

  lemma SqrtPositive(sqrt: real -> real, x: real)
    requires IsSqrt(sqrt) && 0.0 < x
    ensures 0.0 < sqrt(x)
  {
    assert sqrt(x) * sqrt(x) == x;
  }

  lemma SqrtOfOne(sqrt: real -> real)
    requires IsSqrt(sqrt)
    ensures sqrt(1.0) == 1.0
  {
    var s := sqrt(1.0);
    assert 0.0 <= s && s * s == 1.0;
    assert s < 1.0 ==> s * s <= s;
    assert 1.0 < s ==> s < s * s;
  }

  /** Python's `min(a, b)` on numbers. */
  function Min(a: real, b: real): (m: real)
    ensures m <= a && m <= b && (m == a || m == b)
  {
    if b < a then b else a
  }

  /** The larger of two numbers, `a` when `a > b` and `b` otherwise. */
  function Max(a: real, b: real): (m: real)
    ensures a <= m && b <= m && (m == a || m == b)
  {
    if a > b then a else b
  }

  /** Python's `int(x)` on a float: truncation toward zero. */
  function Trunc(x: real): (n: int)
    ensures 0.0 <= x ==> n as real <= x < n as real + 1.0
    ensures x <= 0.0 ==> n as real - 1.0 < x <= n as real
  {
    if 0.0 <= x then x.Floor else -((-x).Floor)
  }

  /** `x ** n` for an integer exponent; a negative exponent divides. */
  function PowInt(x: real, n: int): (p: real)
    requires 0.0 < x
    ensures 0.0 < p
    decreases if n < 0 then -n else n
  {
    if n == 0 then 1.0
    else if n > 0 then x * PowInt(x, n - 1)
    else PowInt(x, n + 1) / x
  }
}

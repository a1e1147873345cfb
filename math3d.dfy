/**
 * `VectorN` from math3d.py: vectors of any dimension over exact reals.
 *
 * The Python operators check their operand's type and dimension and raise; they are
 * modelled by the `Result`-valued functions `Add`, `Sub`, `Mul`, ... over a `Value`
 * operand. The geometry builds on the total componentwise helpers (`Plus`, `Minus`,
 * `Times`, `Dot`, `Cross3`, ...) on vectors whose dimensions are known to agree.
 * The one operation that updates a vector in place, `__setitem__`, is a method of the
 * class `VectorN`.
 */
module Math3D {
  import opened Wrappers
  import opened RealMath

  /** The components `mData` of a vector; its dimension `mDim` is the length. */
  type Vec = seq<real>

  /** The three-component vectors the geometry works with. */
  type Vec3 = v: Vec | |v| == 3 witness [0.0, 0.0, 0.0]

  /** A Python operand: a `VectorN`, an `int`/`float`, or anything else. */
  datatype Value = Vector(v: Vec) | Number(x: real) | Other

  /** The exceptions raised by the operators (the first two wrapped in a plain `Exception`). */
  datatype VecError = TypeError | NotImplementedError | IndexError | ZeroDivisionError

  /** The argument of `VectorN(param)`: an `int` dimension, a sequence, or another type. */
  datatype Param = Dimension(n: nat) | Elements(s: seq<real>) | Unsupported

  // ---------------------------------------------------------------------------
  // Componentwise helpers
  // ---------------------------------------------------------------------------

  function Zero(n: nat): Vec
  {
    seq(n, _ => 0.0)
  }

  function Plus(a: Vec, b: Vec): Vec
    requires |a| == |b|
  {
    seq(|a|, i requires 0 <= i < |a| => a[i] + b[i])
  }

  function Minus(a: Vec, b: Vec): Vec
    requires |a| == |b|
  {
    seq(|a|, i requires 0 <= i < |a| => a[i] - b[i])
  }

  /** `a * s`: every component multiplied by the scalar. */
  function Times(a: Vec, s: real): Vec
  {
    seq(|a|, i requires 0 <= i < |a| => a[i] * s)
  }

  /** `a / s` for a non-zero scalar. */
  function Over(a: Vec, s: real): Vec
    requires s != 0.0
  {
    seq(|a|, i requires 0 <= i < |a| => a[i] / s)
  }

  /** The elementwise product of `pairwise`. */
  function Product(a: Vec, b: Vec): Vec
    requires |a| == |b|
  {
    seq(|a|, i requires 0 <= i < |a| => a[i] * b[i])
  }

  /** The dot product, accumulated from the first component to the last as `dot` does. */
  function Dot(a: Vec, b: Vec): real
    requires |a| == |b|
    decreases |a|
  {
    if |a| == 0 then 0.0 else Dot(a[..|a| - 1], b[..|b| - 1]) + a[|a| - 1] * b[|b| - 1]
  }

  function Cross3(a: Vec3, b: Vec3): Vec3
  {
    [a[1] * b[2] - a[2] * b[1], a[2] * b[0] - a[0] * b[2], a[0] * b[1] - a[1] * b[0]]
  }

  /** `isZero`: every component is 0.0 (vacuously so for the empty vector). */
  predicate AllZero(a: Vec)
  {
    forall i :: 0 <= i < |a| ==> a[i] == 0.0
  }

  // ---------------------------------------------------------------------------
  // Construction and the checked operators
  // ---------------------------------------------------------------------------

  /** `VectorN(param)`: zero-filled for a dimension, a copy for a sequence, TypeError otherwise. */
  function NewVector(p: Param): (r: Result<Vec, VecError>)
    ensures p.Dimension? ==> r.Success? && |r.value| == p.n && AllZero(r.value)
    ensures p.Elements? ==> r.Success? && |r.value| == |p.s| && forall i :: 0 <= i < |p.s| ==> r.value[i] == p.s[i]
    ensures p.Unsupported? <==> r == Failure(TypeError)
  {
    match p
    case Dimension(n) => Success(Zero(n))
    case Elements(s) => Success(s)
    case Unsupported => Failure(TypeError)
  }

  /** `self + other`. */
  function Add(a: Vec, other: Value): (r: Result<Vec, VecError>)
    ensures r.Success? <==> other.Vector? && |other.v| == |a|
    ensures r.Failure? ==> r.error == TypeError
    ensures r.Success? ==> |r.value| == |a| && forall i :: 0 <= i < |a| ==> r.value[i] == a[i] + other.v[i]
  {
    if !other.Vector? || |other.v| != |a| then Failure(TypeError) else Success(Plus(a, other.v))
  }

  /** `other + self` reaching `__radd__`, which delegates to `self + other`. */
  function RAdd(a: Vec, other: Value): (r: Result<Vec, VecError>)
    ensures r.Success? <==> other.Vector? && |other.v| == |a|
    ensures r.Success? ==> |r.value| == |a| && forall i :: 0 <= i < |a| ==> r.value[i] == other.v[i] + a[i]
    ensures r.Failure? ==> r.error == TypeError
  {
    Add(a, other)
  }

  /** `self - other`. */
  function Sub(a: Vec, other: Value): (r: Result<Vec, VecError>)
    ensures r.Success? <==> other.Vector? && |other.v| == |a|
    ensures r.Failure? ==> r.error == TypeError
    ensures r.Success? ==> |r.value| == |a| && forall i :: 0 <= i < |a| ==> r.value[i] == a[i] - other.v[i]
  {
    if !other.Vector? || |other.v| != |a| then Failure(TypeError) else Success(Minus(a, other.v))
  }

  /** `__rsub__`: the same checks as `-`, with the operands swapped in every component. */
  function RSub(a: Vec, other: Value): (r: Result<Vec, VecError>)
    ensures r.Success? <==> other.Vector? && |other.v| == |a|
    ensures r.Failure? ==> r.error == TypeError
    ensures r.Success? ==> |r.value| == |a| && forall i :: 0 <= i < |a| ==> r.value[i] == other.v[i] - a[i]
  {
    if !other.Vector? || |other.v| != |a| then Failure(TypeError) else Success(Minus(other.v, a))
  }

  /** `self * scaler`: only a number is accepted. */
  function Mul(a: Vec, scaler: Value): (r: Result<Vec, VecError>)
    ensures r.Success? <==> scaler.Number?
    ensures r.Failure? ==> r.error == TypeError
    ensures r.Success? ==> |r.value| == |a| && forall i :: 0 <= i < |a| ==> r.value[i] == a[i] * scaler.x
  {
    if !scaler.Number? then Failure(TypeError) else Success(Times(a, scaler.x))
  }

  /** `scaler * self` reaching `__rmul__`, which delegates to `self * scaler`. */
  function RMul(a: Vec, scaler: Value): (r: Result<Vec, VecError>)
    ensures r.Success? <==> scaler.Number?
    ensures r.Success? ==> |r.value| == |a| && forall i :: 0 <= i < |a| ==> r.value[i] == scaler.x * a[i]
    ensures r.Failure? ==> r.error == TypeError
  {
    Mul(a, scaler)
  }

  /**
   * `self / scaler`: a non-number is a TypeError; a zero scaler raises ZeroDivisionError
   * as soon as there is a component to divide, so the empty vector divides by zero silently.
   */
  function Div(a: Vec, scaler: Value): (r: Result<Vec, VecError>)
    ensures r.Success? <==> scaler.Number? && (scaler.x != 0.0 || |a| == 0)
    ensures !scaler.Number? ==> r == Failure(TypeError)
    ensures scaler.Number? && scaler.x == 0.0 && |a| > 0 ==> r == Failure(ZeroDivisionError)
    ensures r.Success? ==> |r.value| == |a| && forall i :: 0 <= i < |a| ==> r.value[i] * scaler.x == a[i]
  {
    if !scaler.Number? then Failure(TypeError)
    else if scaler.x == 0.0 then (if |a| == 0 then Success([]) else Failure(ZeroDivisionError))
    else Success(Over(a, scaler.x))
  }

  /** `other / self`: dividing anything by a vector always raises. */
  function RDiv(a: Vec, other: Value): (r: Result<Vec, VecError>)
    ensures r.Failure? && r.error == NotImplementedError
  {
    Failure(NotImplementedError)
  }

  /** `-self`. */
  function Neg(a: Vec): (r: Vec)
    ensures |r| == |a| && Plus(a, r) == Zero(|a|)
  {
    seq(|a|, i requires 0 <= i < |a| => -a[i])
  }

  /** `self.dot(other)`: the sum of componentwise products of two vectors of one dimension. */
  function DotProduct(a: Vec, other: Value): (r: Result<real, VecError>)
    ensures r.Success? <==> other.Vector? && |other.v| == |a|
    ensures r.Failure? ==> r.error == TypeError
    ensures r.Success? ==> r.value == Dot(other.v, a)
  {
    if !other.Vector? || |other.v| != |a| then Failure(TypeError)
    else
      DotSymmetric(a, other.v);
      Success(Dot(a, other.v))
  }

  /**
   * `self.cross(other)`: the left operand's dimension is checked (twice) and the right one's
   * never, so a right operand shorter than 3 fails only when indexed (IndexError) and a
   * longer one contributes its first three components.
   */
  function Cross(a: Vec, other: Value): (r: Result<Vec, VecError>)
    ensures r.Success? <==> other.Vector? && |a| == 3 && |other.v| >= 3
    ensures !other.Vector? || |a| != 3 ==> r == Failure(TypeError)
    ensures other.Vector? && |a| == 3 && |other.v| < 3 ==> r == Failure(IndexError)
    ensures r.Success? ==> |r.value| == 3 && Dot(a, r.value) == 0.0 && Dot(other.v[..3], r.value) == 0.0
  {
    if !other.Vector? || |a| != 3 then Failure(TypeError)
    else if |other.v| < 3 then Failure(IndexError)
    else
      CrossOrthogonal(a, other.v[..3]);
      Success(Cross3(a, other.v[..3]))
  }

  /** `self.pairwise(other)`. */
  function Pairwise(a: Vec, other: Value): (r: Result<Vec, VecError>)
    ensures r.Success? <==> other.Vector? && |other.v| == |a|
    ensures r.Failure? ==> r.error == TypeError
    ensures r.Success? ==> |r.value| == |a| && forall i :: 0 <= i < |a| ==> r.value[i] == a[i] * other.v[i]
  {
    if !other.Vector? || |other.v| != |a| then Failure(TypeError) else Success(Product(a, other.v))
  }

  /** `magnitudeSquared`: 0 for a zero vector, the self dot product otherwise. */
  function MagnitudeSquared(a: Vec): (r: real)
    ensures r == Dot(a, a) && 0.0 <= r
    ensures r == 0.0 <==> AllZero(a)
  {
    DotSelf(a);
    if AllZero(a) then 0.0 else Dot(a, a)
  }

  /** `magnitude`: 0 for a zero vector, the square root of the sum of squares otherwise. */
  function Magnitude(sqrt: real -> real, a: Vec): (r: real)
    requires IsSqrt(sqrt)
    ensures 0.0 <= r && r * r == Dot(a, a)
    ensures r == 0.0 <==> AllZero(a)
  {
    DotSelf(a);
    if AllZero(a) then 0.0
    else
      SqrtPositive(sqrt, Dot(a, a));
      sqrt(Dot(a, a))
  }

  /** `normalized_copy`: a zero vector is copied unchanged, any other divided by its magnitude. */
  function Normalized(sqrt: real -> real, a: Vec): (r: Vec)
    requires IsSqrt(sqrt)
    ensures |r| == |a|
    ensures AllZero(a) ==> r == a
    ensures !AllZero(a) ==> 0.0 < Magnitude(sqrt, a) && forall i :: 0 <= i < |a| ==> r[i] * Magnitude(sqrt, a) == a[i]
  {
    if AllZero(a) then a else Over(a, Magnitude(sqrt, a))
  }

  /** `isZero`: scans until a non-zero component is met, starting from `rv = True`. */
  method IsZero(a: Vec) returns (rv: bool)
    ensures rv <==> AllZero(a)
  {
    rv := true;
    var i := 0;
    while i < |a|
      invariant 0 <= i <= |a|
      invariant rv && forall k :: 0 <= k < i ==> a[k] == 0.0
    {
      rv := a[i] == 0.0;
      if !rv {
        break;
      }
      i := i + 1;
    }
  }

  /** `self == other`: False for a non-vector or another dimension, else componentwise. */
  method Equals(a: Vec, other: Value) returns (eq: bool)
    ensures eq <==> other.Vector? && other.v == a
  {
    if !other.Vector? || |other.v| != |a| {
      return false;
    }
    var b := other.v;
    var i := 0;
    while i < |a|
      invariant 0 <= i <= |a|
      invariant forall k :: 0 <= k < i ==> a[k] == b[k]
    {
      if a[i] != b[i] {
        return false;
      }
      i := i + 1;
    }
    return true;
  }

  /** A Python index into a sequence of length `n`: negative keys count from the end. */
  function PyIndex(key: int, n: nat): (k: nat)
    requires -(n as int) <= key < n
    ensures k < n
  {
    if key < 0 then key + n else key
  }

  /** A `VectorN` object: the component list is updated in place by `__setitem__`. */
  class VectorN {
    var data: Vec

    constructor (v: Vec)
      ensures data == v
    {
      data := v;
    }

    /** `self[key] = value`: only index `key` changes; an index out of range raises IndexError. */
    method SetItem(key: int, value: real) returns (ok: bool)
      modifies this
      ensures ok <==> -|old(data)| <= key < |old(data)|
      ensures |data| == |old(data)|
      ensures ok ==> data[PyIndex(key, |data|)] == value
      ensures forall i :: 0 <= i < |data| && (!ok || i != PyIndex(key, |data|)) ==> data[i] == old(data)[i]
    {
      ok := -|data| <= key < |data|;
      if ok {
        data := data[PyIndex(key, |data|) := value];
      }
    }

    /** `copy`: a new object holding an equal vector. */
    method Copy() returns (c: VectorN)
      ensures fresh(c) && c.data == data
    {
      c := new VectorN(data);
    }
  }

  // ---------------------------------------------------------------------------
  // Laws of the algebra
  // ---------------------------------------------------------------------------

  lemma PlusCommutative(a: Vec, b: Vec)
    requires |a| == |b|
    ensures Plus(a, b) == Plus(b, a)
  {
  }

  lemma PlusAssociative(a: Vec, b: Vec, c: Vec)
    requires |a| == |b| == |c|
    ensures Plus(Plus(a, b), c) == Plus(a, Plus(b, c))
  {
  }

  /** `s * (a + b) == s * a + s * b`. */
  lemma TimesDistributes(a: Vec, b: Vec, s: real)
    requires |a| == |b|
    ensures Times(Plus(a, b), s) == Plus(Times(a, s), Times(b, s))
  {
    forall i | 0 <= i < |a|
      ensures Times(Plus(a, b), s)[i] == Plus(Times(a, s), Times(b, s))[i]
    {
      assert (a[i] + b[i]) * s == a[i] * s + b[i] * s;
    }
  }

  lemma {:induction false} DotSymmetric(a: Vec, b: Vec)
    requires |a| == |b|
    ensures Dot(a, b) == Dot(b, a)
    decreases |a|
  {
    if |a| > 0 {
      DotSymmetric(a[..|a| - 1], b[..|b| - 1]);
    }
  }

  lemma {:induction false} DotPlus(a: Vec, b: Vec, c: Vec)
    requires |a| == |b| == |c|
    ensures Dot(Plus(a, b), c) == Dot(a, c) + Dot(b, c)
    decreases |a|
  {
    if |a| > 0 {
      var n := |a| - 1;
      assert Plus(a, b)[..n] == Plus(a[..n], b[..n]);
      DotPlus(a[..n], b[..n], c[..n]);
    }
  }

  lemma {:induction false} DotMinus(a: Vec, b: Vec, c: Vec)
    requires |a| == |b| == |c|
    ensures Dot(Minus(a, b), c) == Dot(a, c) - Dot(b, c)
    decreases |a|
  {
    if |a| > 0 {
      var n := |a| - 1;
      assert Minus(a, b)[..n] == Minus(a[..n], b[..n]);
      DotMinus(a[..n], b[..n], c[..n]);
    }
  }

  lemma {:induction false} DotTimes(a: Vec, s: real, b: Vec)
    requires |a| == |b|
    ensures Dot(Times(a, s), b) == s * Dot(a, b)
    decreases |a|
  {
    if |a| > 0 {
      var n := |a| - 1;
      forall i | 0 <= i < n ensures Times(a, s)[..n][i] == Times(a[..n], s)[i] {
      }
      assert Times(a, s)[..n] == Times(a[..n], s);
      DotTimes(a[..n], s, b[..n]);
    }
  }

  lemma {:induction false} DotOver(a: Vec, m: real, b: Vec)
    requires |a| == |b| && m != 0.0
    ensures Dot(Over(a, m), b) == Dot(a, b) / m
    decreases |a|
  {
    if |a| > 0 {
      var n := |a| - 1;
      assert Over(a, m)[..n] == Over(a[..n], m);
      DotOver(a[..n], m, b[..n]);
    }
  }

  /** The self dot product is a sum of squares: never negative, and zero only for a zero vector. */
  lemma {:induction false} DotSelf(a: Vec)
    ensures 0.0 <= Dot(a, a)
    ensures Dot(a, a) == 0.0 <==> AllZero(a)
    decreases |a|
  {
    if |a| > 0 {
      var n := |a| - 1;
      DotSelf(a[..n]);
      assert Dot(a, a) == Dot(a[..n], a[..n]) + a[n] * a[n];
      assert AllZero(a) <==> AllZero(a[..n]) && a[n] == 0.0;
      if a[n] != 0.0 {
        SquarePositive(a[n]);
        SumPositive(Dot(a[..n], a[..n]), a[n], a[n]);
      }
    }
  }

  lemma SumPositive(p: real, x: real, y: real)
    requires 0.0 <= p && 0.0 < x * y
    ensures 0.0 < p + x * y
  {
  }

  lemma SquarePositive(x: real)
    requires x != 0.0
    ensures 0.0 < x * x
  {
    if x < 0.0 {
      assert x * x == (-x) * (-x);
    }
  }

  lemma UnitQuotient(d: real, m: real)
    requires m != 0.0 && d == m * m
    ensures (d / m) / m == 1.0
  {
    assert d / m == m;
  }

  lemma Dot3(a: Vec, b: Vec)
    requires |a| == |b| == 3
    ensures Dot(a, b) == a[0] * b[0] + a[1] * b[1] + a[2] * b[2]
  {
    assert a[..2][..1] == a[..1] && b[..2][..1] == b[..1];
    assert Dot(a[..1], b[..1]) == a[0] * b[0];
  }

  /** The cross product is orthogonal to both of its operands. */
  lemma CrossOrthogonal(a: Vec3, b: Vec3)
    ensures Dot(a, Cross3(a, b)) == 0.0 && Dot(b, Cross3(a, b)) == 0.0
  {
    var c := Cross3(a, b);
    Dot3(a, c);
    Dot3(b, c);
  }

  /** A non-zero vector normalizes to unit length. */
  lemma NormalizedUnit(sqrt: real -> real, a: Vec)
    requires IsSqrt(sqrt) && !AllZero(a)
    ensures Dot(Normalized(sqrt, a), Normalized(sqrt, a)) == 1.0
  {
    var m := Magnitude(sqrt, a);
    var u := Over(a, m);
    assert Normalized(sqrt, a) == u;
    DotOver(a, m, u);
    DotSymmetric(a, u);
    DotOver(a, m, a);
    var d := Dot(a, a);
    assert Dot(u, u) == (d / m) / m;
    assert d == m * m;
    assert d / m == m;
    UnitQuotient(d, m);
  }

  /** Normalizing keeps orthogonality: a scaled vector is orthogonal to whatever the original was. */
  lemma NormalizedOrthogonal(sqrt: real -> real, a: Vec, b: Vec)
    requires IsSqrt(sqrt) && |a| == |b| && Dot(a, b) == 0.0
    ensures Dot(Normalized(sqrt, a), b) == 0.0
  {
    if !AllZero(a) {
      DotOver(a, Magnitude(sqrt, a), b);
    }
  }
}

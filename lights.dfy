/**
 * `Light` and `Spotlight` of objects3d.py.
 *
 * A light is a value. A spotlight's falloff works on squared tangents: a point whose
 * direction from the light makes an angle with the spot's axis whose squared tangent is
 * within the inner cone's gets full intensity, beyond the outer cone's none, and in between
 * a linear blend. `tan(radians(x))` is the parameter `tanDegrees`.
 */
module Lights {
  import opened Wrappers
  import opened RealMath
  import opened Math3D

  const FullIntensity: real := 1.0
  const NoIntensity: real := 0.0

  /** The widest cone angle a spotlight accepts, in degrees. */
  const MaxConeAngle: real := 179.99

  /**
   * A point light (`Light`) or a `Spotlight` with its clamped cone angles, the squared
   * tangents of their halves, and its axis.
   */
  datatype Light =
    | PointLight(pos: Vec3, diffuse: Vec3, specular: Vec3)
    | Spotlight(pos: Vec3, diffuse: Vec3, specular: Vec3,
                innerAngle: real, innerTan2: real, outerAngle: real, outerTan2: real, direction: Vec3)

  /**
   * `Spotlight(pos, diffuse, specular, innerAngle, outerAngle, direction, isNormalized)`:
   * both angles are clamped to 179.99 degrees before the squared tangents of their halves
   * are taken; the axis is normalized unless the caller says it already is.
   */
  function NewSpotlight(sqrt: real -> real, tanDegrees: real -> real, pos: Vec3, diffuse: Vec3, specular: Vec3,
                        innerAngle: real, outerAngle: real, direction: Vec3, isNormalized: bool): (l: Light)
    requires IsSqrt(sqrt)
    ensures l.Spotlight? && l.pos == pos && l.diffuse == diffuse && l.specular == specular
    ensures l.innerAngle <= MaxConeAngle && l.outerAngle <= MaxConeAngle
    ensures l.innerAngle == innerAngle || (l.innerAngle == MaxConeAngle && innerAngle > MaxConeAngle)
    ensures l.outerAngle == outerAngle || (l.outerAngle == MaxConeAngle && outerAngle > MaxConeAngle)
    ensures 0.0 <= l.innerTan2 && 0.0 <= l.outerTan2
    ensures l.innerTan2 == tanDegrees(l.innerAngle / 2.0) * tanDegrees(l.innerAngle / 2.0)
    ensures l.outerTan2 == tanDegrees(l.outerAngle / 2.0) * tanDegrees(l.outerAngle / 2.0)
    ensures isNormalized ==> l.direction == direction
    ensures !isNormalized && !AllZero(direction) ==> Dot(l.direction, l.direction) == 1.0
  {
    var inner := Min(innerAngle, MaxConeAngle);
    var innerTan := tanDegrees(inner / 2.0);
    var outer := Min(outerAngle, MaxConeAngle);
    var outerTan := tanDegrees(outer / 2.0);
    SquareNonNegative(innerTan);
    SquareNonNegative(outerTan);
    var axis := if isNormalized then direction else Normalized(sqrt, direction);
    if !isNormalized && !AllZero(direction) then
      NormalizedUnit(sqrt, direction);
      Spotlight(pos, diffuse, specular, inner, innerTan * innerTan, outer, outerTan * outerTan, axis)
    else
      Spotlight(pos, diffuse, specular, inner, innerTan * innerTan, outer, outerTan * outerTan, axis)
  }

  lemma SquareNonNegative(x: real)
    ensures 0.0 <= x * x
  {
    if x < 0.0 {
      assert x * x == (-x) * (-x);
    }
  }

  /**
   * The falloff over the squared tangent `tan2` of the angle off the axis: full up to the
   * inner cone's, then a linear fall to none at the outer cone's, none beyond.
   */
  function SpotFalloff(inner2: real, outer2: real, tan2: real): (k: real)
    ensures 0.0 <= k <= 1.0
    ensures tan2 <= inner2 ==> k == FullIntensity
    ensures inner2 < tan2 && outer2 < tan2 ==> k == NoIntensity
  {
    if tan2 <= inner2 then FullIntensity
    else if tan2 <= outer2 then
      FractionBounds(tan2 - inner2, outer2 - inner2);
      1.0 - (tan2 - inner2) / (outer2 - inner2)
    else NoIntensity
  }

  lemma FractionBounds(x: real, y: real)
    requires 0.0 < x <= y
    ensures 0.0 < x / y <= 1.0
  {
    assert x / y * y == x;
  }

  /**
   * `toPointTangent2`: the squared tangent of the angle between the axis and `toPoint`,
   * the squared perpendicular part over the squared parallel part.
   */
  function Tangent2(toPoint: Vec3, parallel: real): (t: real)
    requires parallel > 0.0
    ensures t * (parallel * parallel) == MagnitudeSquared(toPoint) - parallel * parallel
  {
    (MagnitudeSquared(toPoint) - parallel * parallel) / (parallel * parallel)
  }

  /**
   * `getIntensity(point)`: always 1 for a point light. A spotlight gives no value at all
   * (`None`) for a point at or behind the plane through the light across its axis, and
   * otherwise its falloff at the point's squared tangent `perp^2 / parallel^2`.
   */
  function Intensity(light: Light, point: Vec3): (r: Option<real>)
    ensures light.PointLight? ==> r == Some(FullIntensity)
    ensures r.None? <==> light.Spotlight? && Dot(light.direction, Minus(point, light.pos)) <= 0.0
    ensures r.Some? ==> 0.0 <= r.value <= 1.0
    ensures light.Spotlight? ==>
      var toPoint := Minus(point, light.pos);
      var parallel := Dot(light.direction, toPoint);
      parallel > 0.0 ==>
        var tan2 := Tangent2(toPoint, parallel);
        (tan2 <= light.innerTan2 ==> r == Some(FullIntensity))
        && (light.innerTan2 < tan2 <= light.outerTan2 ==>
              r == Some(1.0 - (tan2 - light.innerTan2) / (light.outerTan2 - light.innerTan2)))
        && (light.innerTan2 < tan2 && light.outerTan2 < tan2 ==> r == Some(NoIntensity))
  {
    match light
    case PointLight(_, _, _) => Some(FullIntensity)
    case Spotlight(pos, _, _, _, inner2, _, outer2, direction) =>
      var toPoint := Minus(point, pos);
      var parallel := Dot(direction, toPoint);
      if parallel > 0.0 then
        Some(SpotFalloff(inner2, outer2, Tangent2(toPoint, parallel)))
      else None
  }

  /** The falloff never increases as the angle off the axis grows. */
  lemma FalloffMonotone(inner2: real, outer2: real, t1: real, t2: real)
    requires t1 <= t2
    ensures SpotFalloff(inner2, outer2, t2) <= SpotFalloff(inner2, outer2, t1)
  {
    if inner2 < t1 && t2 <= outer2 {
      var w := outer2 - inner2;
      assert (t2 - inner2) / w - (t1 - inner2) / w == (t2 - t1) / w;
      assert 0.0 <= (t2 - t1) / w;
    }
  }

  /** The falloff is continuous: 1 at the inner cone's edge and 0 at the outer cone's. */
  lemma FalloffContinuous(inner2: real, outer2: real)
    requires inner2 < outer2
    ensures SpotFalloff(inner2, outer2, inner2) == 1.0
    ensures SpotFalloff(inner2, outer2, outer2) == 0.0
  {
    assert (outer2 - inner2) / (outer2 - inner2) == 1.0;
  }

  /** A point ahead of a spotlight on its unit axis gets full intensity. */
  lemma SpotAxisFull(light: Light, s: real)
    requires light.Spotlight? && Dot(light.direction, light.direction) == 1.0
    requires 0.0 < s && 0.0 <= light.innerTan2
    ensures Intensity(light, Plus(light.pos, Times(light.direction, s))) == Some(FullIntensity)
  {
    var d := light.direction;
    var p := Plus(light.pos, Times(d, s));
    var v := Minus(p, light.pos);
    assert v == Times(d, s);
    DotTimes(d, s, d);
    DotSymmetric(d, v);
    assert Dot(d, v) == s;
    DotTimes(d, s, v);
    assert Dot(v, v) == s * s;
    SquarePositive(s);
    assert MagnitudeSquared(v) - s * s == 0.0;
  }
}

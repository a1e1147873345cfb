/**
 * Materials and rays of objects3d.py.
 *
 * Both are plain values: a `Material` is never changed after construction and a `Ray`
 * copies its origin and direction, so the copies of the source become value semantics.
 */
module Rays {
  import opened RealMath
  import opened Math3D

  /** Surface colours: `mAmbient`, `mDiffuse`, `mSpecular` and the Phong exponent `mHardness`. */
  datatype Material = Material(ambient: Vec3, diffuse: Vec3, specular: Vec3, hardness: int)

  const AmbientFactor: Vec3 := [0.3, 0.3, 0.3]
  const DefaultSpecular: Vec3 := [1.0, 1.0, 1.0]
  const DefaultHardness: int := 18

  /** `Material(diffuseColor, specularColor, hardness)`: the ambient colour is 30% of the diffuse one. */
  function NewMaterial(diffuse: Vec3, specular: Vec3, hardness: int): (m: Material)
    ensures m.diffuse == diffuse && m.specular == specular && m.hardness == hardness
    ensures forall i :: 0 <= i < 3 ==> m.ambient[i] == 0.3 * diffuse[i]
    ensures forall i :: 0 <= i < 3 && 0.0 <= diffuse[i] ==> 0.0 <= m.ambient[i] <= diffuse[i]
  {
    Material(Product(diffuse, AmbientFactor), diffuse, specular, hardness)
  }

  /** `Material(diffuseColor)` with the default white specular colour and hardness 18. */
  function DefaultMaterial(diffuse: Vec3): (m: Material)
    ensures m == NewMaterial(diffuse, DefaultSpecular, DefaultHardness)
    ensures m.specular == [1.0, 1.0, 1.0] && m.hardness == 18
  {
    NewMaterial(diffuse, DefaultSpecular, DefaultHardness)
  }

  /** A ray `mOrigin + t * mDirection`. */
  datatype Ray = Ray(origin: Vec3, direction: Vec3)

  /**
   * `Ray(origin, direction, isNormalized)`: the direction is normalized unless the caller
   * says it already is, in which case it is copied as given.
   */
  function NewRay(sqrt: real -> real, origin: Vec3, direction: Vec3, isNormalized: bool): (r: Ray)
    requires IsSqrt(sqrt)
    ensures r.origin == origin
    ensures isNormalized ==> r.direction == direction
    ensures !isNormalized && !AllZero(direction) ==> Dot(r.direction, r.direction) == 1.0
    ensures !isNormalized && AllZero(direction) ==> r.direction == direction
  {
    if isNormalized then Ray(origin, direction)
    else if AllZero(direction) then Ray(origin, Normalized(sqrt, direction))
    else
      NormalizedUnit(sqrt, direction);
      Ray(origin, Normalized(sqrt, direction))
  }

  /** `getPoint(dist)`: the point `dist` along the ray. */
  function GetPoint(ray: Ray, dist: real): (p: Vec3)
    ensures Minus(p, ray.origin) == Times(ray.direction, dist)
  {
    Plus(ray.origin, Times(ray.direction, dist))
  }

  /** The point at distance 0 is the origin. */
  lemma GetPointZero(ray: Ray)
    ensures GetPoint(ray, 0.0) == ray.origin
  {
    assert forall i :: 0 <= i < 3 ==> GetPoint(ray, 0.0)[i] == ray.origin[i];
  }

  /**
   * Along a unit direction the parameter is the Euclidean distance travelled:
   * the squared length of `getPoint(t) - origin` is `t * t`.
   */
  lemma GetPointDistance(ray: Ray, t: real)
    requires Dot(ray.direction, ray.direction) == 1.0
    ensures Dot(Minus(GetPoint(ray, t), ray.origin), Minus(GetPoint(ray, t), ray.origin)) == t * t
  {
    var w := Times(ray.direction, t);
    assert Minus(GetPoint(ray, t), ray.origin) == w;
    DotTimes(ray.direction, t, w);
    DotSymmetric(ray.direction, w);
    DotTimes(ray.direction, t, ray.direction);
  }
}

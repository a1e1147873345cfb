/**
 * The primitives of objects3d.py (`Sphere`, `Plane`, `AABB`, `CylinderY`): their data,
 * their normals, and the distances along a ray at which each of them is hit.
 *
 * A primitive is never changed after construction, so it is a value. The hit tests are
 * stated here as functions from a ray to `None` or the list of distances that `rayHit`
 * records, in the order it records them; the methods that build the `RayHitResult`
 * objects (module `HitResults`) are proved to produce exactly these lists.
 */
module Primitives {
  import opened Wrappers
  import opened RealMath
  import opened Math3D
  import opened Rays

  /** `Sphere`, `Plane`, `AABB` (with its six bounding planes) and `CylinderY`. */
  datatype Primitive =
    | Sphere(center: Vec3, radius: real, material: Material)
    | Plane(normal: Vec3, d: real, material: Material)
    | AABB(minPt: Vec3, maxPt: Vec3, planes: seq<Primitive>, material: Material)
    | CylinderY(base: Vec3, height: real, radius: real, material: Material)

  /**
   * What the methods of a primitive rely on: a box has its six planes, and the normal of a
   * sphere or a cylinder side divides by a non-zero radius.
   */
  predicate WellFormed(obj: Primitive)
  {
    match obj
    case Sphere(_, radius, _) => radius != 0.0
    case Plane(_, _, _) => true
    case AABB(_, _, planes, _) => |planes| == 6 && forall i :: 0 <= i < 6 ==> planes[i].Plane?
    case CylinderY(_, _, radius, _) => radius != 0.0
  }

  /** `radius ** 2`. */
  function RadiusSq(radius: real): real
  {
    radius * radius
  }

  // ---------------------------------------------------------------------------
  // Construction
  // ---------------------------------------------------------------------------

  /** `Plane(normal, dvalue, material)`: the plane `N . P == d` with the normal normalized. */
  function NewPlane(sqrt: real -> real, normal: Vec3, d: real, material: Material): (p: Primitive)
    requires IsSqrt(sqrt)
    ensures p.Plane? && p.d == d && p.material == material
    ensures !AllZero(normal) ==> Dot(p.normal, p.normal) == 1.0
    ensures AllZero(normal) ==> p.normal == normal
  {
    if AllZero(normal) then Plane(Normalized(sqrt, normal), d, material)
    else
      NormalizedUnit(sqrt, normal);
      Plane(Normalized(sqrt, normal), d, material)
  }

  /** The face normals of a box, in the order -X, +X, -Y, +Y, -Z, +Z. */
  const BoxNormals: seq<Vec3> := [[-1.0, 0.0, 0.0], [1.0, 0.0, 0.0], [0.0, -1.0, 0.0],
                                  [0.0, 1.0, 0.0], [0.0, 0.0, -1.0], [0.0, 0.0, 1.0]]

  const UnitY: Vec3 := [0.0, 1.0, 0.0]
  const NegUnitY: Vec3 := [0.0, -1.0, 0.0]

  /** An axis direction is its own normalized copy. */
  lemma AxisNormalized(sqrt: real -> real, n: Vec3)
    requires IsSqrt(sqrt)
    requires n in BoxNormals
    ensures Normalized(sqrt, n) == n
  {
    Dot3(n, n);
    assert Dot(n, n) == 1.0;
    assert !AllZero(n) by {
      assert n[0] != 0.0 || n[1] != 0.0 || n[2] != 0.0;
    }
    SqrtOfOne(sqrt);
    assert Magnitude(sqrt, n) == 1.0;
  }

  /** The box the constructor derives from its two corners: each face plane sits on its corner. */
  predicate BoxShaped(box: Primitive)
  {
    && box.AABB?
    && (forall j :: 0 <= j < 3 ==> box.minPt[j] <= box.maxPt[j])
    && |box.planes| == 6
    && forall i :: 0 <= i < 6 ==>
         box.planes[i] == Plane(BoxNormals[i], Dot(BoxNormals[i], if i % 2 == 0 then box.minPt else box.maxPt), box.material)
  }

  /**
   * `AABB(ptA, ptB, material)`: the corners are sorted per axis into `mMinPt`/`mMaxPt`
   * (updated in place from copies of `ptA` and `ptB`), then the six face planes are built.
   */
  method NewBox(sqrt: real -> real, ptA: Vec3, ptB: Vec3, material: Material) returns (box: Primitive)
    requires IsSqrt(sqrt)
    ensures BoxShaped(box) && WellFormed(box)
    ensures box.material == material
    ensures forall j :: 0 <= j < 3 ==> box.minPt[j] == Min(ptA[j], ptB[j]) && box.maxPt[j] == Max(ptA[j], ptB[j])
  {
    var minPt := ptA;
    var maxPt := ptB;
    for i := 0 to 3
      invariant |minPt| == |maxPt| == 3
      invariant forall j :: 0 <= j < i ==> minPt[j] == Min(ptA[j], ptB[j]) && maxPt[j] == Max(ptA[j], ptB[j])
      invariant forall j :: i <= j < 3 ==> minPt[j] == ptA[j] && maxPt[j] == ptB[j]
    {
      if ptB[i] < minPt[i] {
        minPt := minPt[i := ptB[i]];
      }
      if ptA[i] > maxPt[i] {
        maxPt := maxPt[i := ptA[i]];
      }
    }
    var planes: seq<Primitive> := [];
    for i := 0 to 6
      invariant |planes| == i
      invariant forall k :: 0 <= k < i ==>
        planes[k] == Plane(BoxNormals[k], Dot(BoxNormals[k], if k % 2 == 0 then minPt else maxPt), material)
    {
      var p := if i % 2 == 0 then minPt else maxPt;
      AxisNormalized(sqrt, BoxNormals[i]);
      planes := planes + [NewPlane(sqrt, BoxNormals[i], Dot(BoxNormals[i], p), material)];
    }
    box := AABB(minPt, maxPt, planes, material);
  }

  /** Face `i` of a shaped box is the plane of the corner coordinate on axis `i / 2`. */
  lemma BoxFacePlane(box: Primitive, i: int, p: Vec3)
    requires BoxShaped(box) && 0 <= i < 6
    ensures Dot(box.planes[i].normal, p) == (if i % 2 == 0 then -p[i / 2] else p[i / 2])
    ensures box.planes[i].d == (if i % 2 == 0 then -box.minPt[i / 2] else box.maxPt[i / 2])
  {
    var n := BoxNormals[i];
    Dot3(n, p);
    Dot3(n, if i % 2 == 0 then box.minPt else box.maxPt);
  }

  // ---------------------------------------------------------------------------
  // Sphere
  // ---------------------------------------------------------------------------

  /** `toCenter`: from the ray origin to the sphere centre. */
  function ToCenter(center: Vec3, ray: Ray): Vec3
  {
    Minus(center, ray.origin)
  }

  /** `projDist`: the distance along the ray to the point closest to the centre. */
  function ProjDist(center: Vec3, ray: Ray): real
  {
    Dot(ToCenter(center, ray), ray.direction)
  }

  /** `closestDistSq`: the squared distance from the centre to the ray's line. */
  function ClosestDistSq(center: Vec3, ray: Ray): real
  {
    Dot(ToCenter(center, ray), ToCenter(center, ray)) - ProjDist(center, ray) * ProjDist(center, ray)
  }

  /** `f`: half the chord the ray's line cuts through the sphere. */
  function HalfChord(sqrt: real -> real, center: Vec3, radius: real, ray: Ray): (f: real)
    requires IsSqrt(sqrt) && ClosestDistSq(center, ray) < RadiusSq(radius)
    ensures 0.0 < f && f * f == RadiusSq(radius) - ClosestDistSq(center, ray)
  {
    SqrtPositive(sqrt, RadiusSq(radius) - ClosestDistSq(center, ray));
    sqrt(RadiusSq(radius) - ClosestDistSq(center, ray))
  }

  /** The ray starts strictly outside the sphere. */
  predicate StartsOutside(center: Vec3, radius: real, ray: Ray)
  {
    MagnitudeSquared(ToCenter(center, ray)) > RadiusSq(radius)
  }

  /**
   * `Sphere.rayHit`: no result when the line passes at or beyond the radius; from outside,
   * the near and far roots that lie ahead of the origin, near first (possibly neither);
   * from inside or on the surface, the far root alone.
   */
  function SphereHits(sqrt: real -> real, center: Vec3, radius: real, ray: Ray): (r: Option<seq<real>>)
    requires IsSqrt(sqrt)
    ensures r.None? <==> ClosestDistSq(center, ray) >= RadiusSq(radius)
    ensures r.Some? && StartsOutside(center, radius, ray) ==>
      && |r.value| <= 2
      && (forall i :: 0 <= i < |r.value| ==> 0.0 < r.value[i])
      && (|r.value| == 2 ==> r.value[0] < r.value[1])
      && (|r.value| == 0 <==> ProjDist(center, ray) + HalfChord(sqrt, center, radius, ray) <= 0.0)
    ensures r.Some? && StartsOutside(center, radius, ray) ==>
      var proj := ProjDist(center, ray);
      var f := HalfChord(sqrt, center, radius, ray);
      (proj - f > 0.0 ==> proj - f in r.value) && (proj + f > 0.0 ==> proj + f in r.value)
    ensures r.Some? && !StartsOutside(center, radius, ray) ==>
      r.value == [ProjDist(center, ray) + HalfChord(sqrt, center, radius, ray)] && 0.0 <= r.value[0]
    ensures r.Some? ==> forall i :: 0 <= i < |r.value| ==>
      r.value[i] == ProjDist(center, ray) - HalfChord(sqrt, center, radius, ray) ||
      r.value[i] == ProjDist(center, ray) + HalfChord(sqrt, center, radius, ray)
  {
    if ClosestDistSq(center, ray) >= RadiusSq(radius) then None
    else
      var proj := ProjDist(center, ray);
      var f := HalfChord(sqrt, center, radius, ray);
      if StartsOutside(center, radius, ray) then
        Some((if proj - f > 0.0 then [proj - f] else []) + (if proj + f > 0.0 then [proj + f] else []))
      else
        InsideRootAhead(center, radius, ray, f);
        Some([proj + f])
  }

  lemma NegProduct(a: real, b: real)
    requires a < 0.0 && b < 0.0
    ensures 0.0 < a * b
  {
    assert (-a) * (-b) == a * b;
  }

  /** From inside the sphere the far root is never behind the origin. */
  lemma InsideRootAhead(center: Vec3, radius: real, ray: Ray, f: real)
    requires !StartsOutside(center, radius, ray)
    requires 0.0 <= f && f * f == RadiusSq(radius) - ClosestDistSq(center, ray)
    ensures 0.0 <= ProjDist(center, ray) + f
  {
    var p := ProjDist(center, ray);
    assert p * p <= f * f;
    assert p + f < 0.0 ==> 0.0 < (p - f) * (p + f) by {
      if p + f < 0.0 {
        NegProduct(p - f, p + f);
      }
    }
    assert (p - f) * (p + f) == p * p - f * f;
  }

  /**
   * With a unit direction, the squared distance from the centre of the point at `t` is
   * `t * t - 2 * t * projDist + |toCenter|^2`.
   */
  lemma DistanceFromCenter(center: Vec3, ray: Ray, t: real)
    requires Dot(ray.direction, ray.direction) == 1.0
    ensures var w := Minus(GetPoint(ray, t), center);
      Dot(w, w) == t * t - 2.0 * t * ProjDist(center, ray) + Dot(ToCenter(center, ray), ToCenter(center, ray))
  {
    var dir := ray.direction;
    var tc := ToCenter(center, ray);
    var td := Times(dir, t);
    var w := Minus(GetPoint(ray, t), center);
    assert w == Minus(td, tc);
    DotMinus(td, tc, w);
    DotTimes(dir, t, w);
    DotSymmetric(dir, w);
    DotMinus(td, tc, dir);
    DotTimes(dir, t, dir);
    DotSymmetric(tc, w);
    DotMinus(td, tc, tc);
    DotTimes(dir, t, tc);
    DotSymmetric(dir, tc);
  }

  /** `t = p +- f` with `f^2 = rSq - (q - p^2)` solves `t^2 - 2 t p + q = rSq`. */
  lemma RootSolves(t: real, p: real, f: real, q: real, rsq: real)
    requires t == p + f || t == p - f
    requires f * f == rsq - (q - p * p)
    ensures t * t - 2.0 * t * p + q == rsq
  {
    assert t * t - 2.0 * t * p == (t - p) * (t - p) - p * p;
    assert (t - p) * (t - p) == f * f;
  }

  /** Along a unit direction every recorded sphere distance lands on the sphere's surface. */
  lemma SphereHitOnSurface(sqrt: real -> real, center: Vec3, radius: real, ray: Ray, i: int)
    requires IsSqrt(sqrt) && Dot(ray.direction, ray.direction) == 1.0
    requires SphereHits(sqrt, center, radius, ray).Some?
    requires 0 <= i < |SphereHits(sqrt, center, radius, ray).value|
    ensures var w := Minus(GetPoint(ray, SphereHits(sqrt, center, radius, ray).value[i]), center);
      Dot(w, w) == RadiusSq(radius)
  {
    RootOnSurface(sqrt, center, radius, ray, SphereHits(sqrt, center, radius, ray).value[i]);
  }

  /** The two roots `projDist +- f` lie on the sphere's surface. */
  lemma RootOnSurface(sqrt: real -> real, center: Vec3, radius: real, ray: Ray, t: real)
    requires IsSqrt(sqrt) && Dot(ray.direction, ray.direction) == 1.0
    requires ClosestDistSq(center, ray) < RadiusSq(radius)
    requires t == ProjDist(center, ray) - HalfChord(sqrt, center, radius, ray)
      || t == ProjDist(center, ray) + HalfChord(sqrt, center, radius, ray)
    ensures var w := Minus(GetPoint(ray, t), center); Dot(w, w) == RadiusSq(radius)
  {
    var tc := ToCenter(center, ray);
    DistanceFromCenter(center, ray, t);
    RootSolves(t, ProjDist(center, ray), HalfChord(sqrt, center, radius, ray), Dot(tc, tc), RadiusSq(radius));
  }

  /** A square equal to `f * f` has root `f` or `-f`. */
  lemma SquareRoots(x: real, f: real)
    requires x * x == f * f
    ensures x == f || x == -f
  {
    assert (x - f) * (x + f) == 0.0;
    if x - f != 0.0 {
      ZeroFactor(x - f, x + f);
    }
  }

  /**
   * The converse of `SphereHitOnSurface`: along a unit direction, every point ahead of the
   * origin that lies on the sphere is recorded, unless the line only grazes the sphere
   * (the `>=` of the miss test drops the tangent point).
   */
  lemma SphereRecordsEveryHit(sqrt: real -> real, center: Vec3, radius: real, ray: Ray, t: real)
    requires IsSqrt(sqrt) && Dot(ray.direction, ray.direction) == 1.0 && 0.0 < t
    requires var w := Minus(GetPoint(ray, t), center); Dot(w, w) == RadiusSq(radius)
    ensures ClosestDistSq(center, ray) == RadiusSq(radius)
      || (SphereHits(sqrt, center, radius, ray).Some? && t in SphereHits(sqrt, center, radius, ray).value)
  {
    SurfacePointIsRoot(sqrt, center, radius, ray, t);
  }

  /**
   * A point ahead of the origin on the sphere is at one of the two roots, and from inside
   * the sphere at the far one; on a grazing line the roots coincide and are not computed.
   */
  lemma SurfacePointIsRoot(sqrt: real -> real, center: Vec3, radius: real, ray: Ray, t: real)
    requires IsSqrt(sqrt) && Dot(ray.direction, ray.direction) == 1.0 && 0.0 < t
    requires var w := Minus(GetPoint(ray, t), center); Dot(w, w) == RadiusSq(radius)
    ensures ClosestDistSq(center, ray) <= RadiusSq(radius)
    ensures ClosestDistSq(center, ray) < RadiusSq(radius) ==>
      var p, f := ProjDist(center, ray), HalfChord(sqrt, center, radius, ray);
      (t == p - f || t == p + f) && (!StartsOutside(center, radius, ray) ==> t == p + f)
  {
    var tc := ToCenter(center, ray);
    var p := ProjDist(center, ray);
    var rsq := RadiusSq(radius);
    DistanceFromCenter(center, ray, t);
    assert (t - p) * (t - p) == rsq - ClosestDistSq(center, ray);
    if t - p != 0.0 {
      SquarePositive(t - p);
    }
    if ClosestDistSq(center, ray) < rsq {
      var f := HalfChord(sqrt, center, radius, ray);
      SquareRoots(t - p, f);
      if !StartsOutside(center, radius, ray) && t == p - f {
        NearRootBehind(p, f, Dot(tc, tc), rsq);
      }
    }
  }

  /** From inside the sphere (`|toCenter|^2 <= r^2`) the near root `p - f` is not ahead of the origin. */
  lemma NearRootBehind(p: real, f: real, q: real, rsq: real)
    requires 0.0 < f && f * f == rsq - (q - p * p) && q <= rsq
    ensures p - f <= 0.0
  {
    if p - f > 0.0 {
      assert (p - f) * (p + f) == q - rsq;
      NegProduct(-(p - f), -(p + f));
      assert (-(p - f)) * (-(p + f)) == (p - f) * (p + f);
    }
  }

  // ---------------------------------------------------------------------------
  // Plane
  // ---------------------------------------------------------------------------

  /**
   * `Plane.rayHit` for the plane `N . P == d`: nothing for a ray parallel to the plane or
   * one that meets it behind its origin, else the one distance `t = (d - O . N) / (D . N)`.
   */
  function PlaneHits(normal: Vec3, d: real, ray: Ray): (r: Option<seq<real>>)
    ensures r.None? <==>
      Dot(ray.direction, normal) == 0.0 || (d - Dot(ray.origin, normal)) / Dot(ray.direction, normal) < 0.0
    ensures r.Some? ==> |r.value| == 1 && 0.0 <= r.value[0]
    ensures r.Some? ==> r.value[0] * Dot(ray.direction, normal) == d - Dot(ray.origin, normal)
  {
    var den := Dot(ray.direction, normal);
    if den == 0.0 then None
    else
      var t := (d - Dot(ray.origin, normal)) / den;
      if t < 0.0 then None else Some([t])
  }

  /** The recorded plane distance lands on the plane: `N . getPoint(t) == d`. */
  lemma PlaneHitOnPlane(normal: Vec3, d: real, ray: Ray)
    requires PlaneHits(normal, d, ray).Some?
    ensures Dot(normal, GetPoint(ray, PlaneHits(normal, d, ray).value[0])) == d
  {
    var t := PlaneHits(normal, d, ray).value[0];
    var td := Times(ray.direction, t);
    DotSymmetric(normal, GetPoint(ray, t));
    DotPlus(ray.origin, td, normal);
    DotTimes(ray.direction, t, normal);
  }

  /**
   * The converse of `PlaneHitOnPlane`: a ray not parallel to the plane that meets it at
   * `t >= 0` records exactly `t`.
   */
  lemma PlaneHitUnique(normal: Vec3, d: real, ray: Ray, t: real)
    requires Dot(ray.direction, normal) != 0.0 && 0.0 <= t
    requires Dot(normal, GetPoint(ray, t)) == d
    ensures PlaneHits(normal, d, ray) == Some([t])
  {
    var td := Times(ray.direction, t);
    var den := Dot(ray.direction, normal);
    DotSymmetric(normal, GetPoint(ray, t));
    DotPlus(ray.origin, td, normal);
    DotTimes(ray.direction, t, normal);
    assert t * den == d - Dot(ray.origin, normal);
    assert (d - Dot(ray.origin, normal)) / den == t;
  }

  // ---------------------------------------------------------------------------
  // Axis-aligned box
  // ---------------------------------------------------------------------------

  /** The bounds test of `AABB.rayHit`: within `[min, max]` on both axes other than face `i`'s. */
  predicate InFace(box: Primitive, i: int, p: Vec3)
    requires box.AABB? && 0 <= i < 6
    ensures InFace(box, i, p) <==>
      forall j :: 0 <= j < 3 && j != i / 2 ==> box.minPt[j] <= p[j] <= box.maxPt[j]
  {
    assert forall j :: 0 <= j < 3 ==> (InFaceBand(box, p, j) <==> box.minPt[j] <= p[j] <= box.maxPt[j]);
    forall j :: 0 <= j < 3 && j != i / 2 ==> InFaceBand(box, p, j)
  }

  /** The point is neither below the box's minimum nor above its maximum on axis `j`. */
  predicate InFaceBand(box: Primitive, p: Vec3, j: int)
    requires box.AABB? && 0 <= j < 3
  {
    !(p[j] < box.minPt[j] || p[j] > box.maxPt[j])
  }

  /** Face `i`'s contribution: its plane's distance when the plane is hit inside the face. */
  function FaceHit(box: Primitive, ray: Ray, i: int): (r: Option<real>)
    requires WellFormed(box) && box.AABB? && 0 <= i < 6
    ensures r.Some? ==>
      (0.0 <= r.value && InFace(box, i, GetPoint(ray, r.value))
       && r.value * Dot(ray.direction, box.planes[i].normal) == box.planes[i].d - Dot(ray.origin, box.planes[i].normal))
  {
    match PlaneHits(box.planes[i].normal, box.planes[i].d, ray)
    case None => None
    case Some(ts) => if InFace(box, i, GetPoint(ray, ts[0])) then Some(ts[0]) else None
  }

  /**
   * `hitDistances` after the first `n` faces: one distance per face hit inside the face,
   * that face's plane distance, in face order.
   */
  function BoxHitsUpTo(box: Primitive, ray: Ray, n: int): (r: seq<real>)
    requires WellFormed(box) && box.AABB? && 0 <= n <= 6
    ensures |r| <= n
    ensures |r| == 0 <==> forall i :: 0 <= i < n ==> FaceHit(box, ray, i).None?
    ensures forall t :: t in r ==> exists i :: 0 <= i < n && FaceHit(box, ray, i) == Some(t)
    ensures forall i :: 0 <= i < n && FaceHit(box, ray, i).Some? ==> FaceHit(box, ray, i).value in r
  {
    if n == 0 then []
    else
      var prev := BoxHitsUpTo(box, ray, n - 1);
      var last := FaceHit(box, ray, n - 1);
      var r := prev + match last case None => [] case Some(t) => [t];
      // A face before the last is recorded by the recursive call; the last one is appended here.
      assert forall i :: 0 <= i < n && FaceHit(box, ray, i).Some? ==> FaceHit(box, ray, i).value in r by {
        forall i | 0 <= i < n && FaceHit(box, ray, i).Some?
          ensures FaceHit(box, ray, i).value in r
        {
          if i < n - 1 {
            assert FaceHit(box, ray, i).value in prev;
          } else {
            assert r[|prev|] == last.value;
          }
        }
      }
      r
  }

  /** The contributions of the first `n` faces, in face order. */
  function FaceHits(box: Primitive, ray: Ray, n: int): (hs: seq<Option<real>>)
    requires WellFormed(box) && box.AABB? && 0 <= n <= 6
    ensures |hs| == n && forall i :: 0 <= i < n ==> hs[i] == FaceHit(box, ray, i)
  {
    if n == 0 then [] else FaceHits(box, ray, n - 1) + [FaceHit(box, ray, n - 1)]
  }

  /** The values of the present entries among the first `n` of `hs`, in order. */
  function Present(hs: seq<Option<real>>, n: int): seq<real>
    requires 0 <= n <= |hs|
  {
    if n == 0 then [] else Present(hs, n - 1) + if hs[n - 1].Some? then [hs[n - 1].value] else []
  }

  /** The indices of the present entries among the first `n` of `hs`, in increasing order. */
  function PresentAt(hs: seq<Option<real>>, n: int): (fs: seq<int>)
    requires 0 <= n <= |hs|
    ensures forall k :: 0 <= k < |fs| ==> 0 <= fs[k] < n && hs[fs[k]].Some?
    ensures forall k, l :: 0 <= k < l < |fs| ==> fs[k] < fs[l]
    ensures forall i :: 0 <= i < n && hs[i].Some? ==> i in fs
  {
    if n == 0 then [] else PresentAt(hs, n - 1) + if hs[n - 1].Some? then [n - 1] else []
  }

  /** The `k`-th present value is the value of the `k`-th present entry. */
  lemma {:induction false} PresentOrder(hs: seq<Option<real>>, n: int)
    requires 0 <= n <= |hs|
    ensures var r, fs := Present(hs, n), PresentAt(hs, n);
      |r| == |fs| && forall k :: 0 <= k < |r| ==> Some(r[k]) == hs[fs[k]]
  {
    if n > 0 {
      PresentOrder(hs, n - 1);
      var prev := Present(hs, n - 1);
      forall k | 0 <= k < |Present(hs, n)|
        ensures Some(Present(hs, n)[k]) == hs[PresentAt(hs, n)[k]]
      {
        if k == |prev| { }
      }
    }
  }

  /** The distances recorded after `n` faces are the present entries among the first `n` faces. */
  lemma {:induction false} BoxHitsArePresent(box: Primitive, ray: Ray, n: int)
    requires WellFormed(box) && box.AABB? && 0 <= n <= 6
    ensures BoxHitsUpTo(box, ray, n) == Present(FaceHits(box, ray, 6), n)
  {
    if n > 0 {
      BoxHitsArePresent(box, ray, n - 1);
      assert FaceHits(box, ray, 6)[n - 1] == FaceHit(box, ray, n - 1);
    }
  }

  /** The faces whose plane is hit inside the face, in face order. */
  function HitFaces(box: Primitive, ray: Ray): (fs: seq<int>)
    requires WellFormed(box) && box.AABB?
    ensures forall k :: 0 <= k < |fs| ==> 0 <= fs[k] < 6 && FaceHit(box, ray, fs[k]).Some?
    ensures forall k, l :: 0 <= k < l < |fs| ==> fs[k] < fs[l]
    ensures forall i :: 0 <= i < 6 && FaceHit(box, ray, i).Some? ==> i in fs
  {
    PresentAt(FaceHits(box, ray, 6), 6)
  }

  /**
   * `AABB.rayHit`: the in-face plane hits in face order, one per face hit, or no result when
   * there are none.
   */
  function BoxHits(box: Primitive, ray: Ray): (r: Option<seq<real>>)
    requires WellFormed(box) && box.AABB?
    ensures r.None? <==> forall i :: 0 <= i < 6 ==> FaceHit(box, ray, i).None?
    ensures r.Some? ==> 1 <= |r.value| <= 6 && forall t :: t in r.value ==> 0.0 <= t
    ensures forall i :: 0 <= i < 6 && FaceHit(box, ray, i).Some? ==> r.Some? && FaceHit(box, ray, i).value in r.value
  {
    var hs := BoxHitsUpTo(box, ray, 6);
    if |hs| == 0 then None else Some(hs)
  }

  /**
   * The order of `AABB.rayHit`'s distances: the `k`-th one recorded is the plane distance
   * of the `k`-th face hit inside the face, in the face order -X, +X, -Y, +Y, -Z, +Z.
   */
  lemma BoxHitsInFaceOrder(box: Primitive, ray: Ray)
    requires WellFormed(box) && box.AABB? && BoxHits(box, ray).Some?
    ensures var hs, fs := BoxHits(box, ray).value, HitFaces(box, ray);
      |hs| == |fs| && forall k :: 0 <= k < |fs| ==> Some(hs[k]) == FaceHit(box, ray, fs[k])
  {
    var faces := FaceHits(box, ray, 6);
    BoxHitsArePresent(box, ray, 6);
    PresentOrder(faces, 6);
  }

  /** Every distance a shaped box records lands on the box: inside `[min, max]` on all three axes. */
  lemma BoxHitOnBox(box: Primitive, ray: Ray, t: real)
    requires BoxShaped(box) && WellFormed(box)
    requires BoxHits(box, ray).Some? && t in BoxHits(box, ray).value
    ensures forall j :: 0 <= j < 3 ==> box.minPt[j] <= GetPoint(ray, t)[j] <= box.maxPt[j]
  {
    var i :| 0 <= i < 6 && FaceHit(box, ray, i) == Some(t);
    var pl := box.planes[i];
    assert PlaneHits(pl.normal, pl.d, ray).Some? && PlaneHits(pl.normal, pl.d, ray).value[0] == t;
    PlaneHitOnPlane(pl.normal, pl.d, ray);
    FacePointOnBox(box, i, GetPoint(ray, t));
  }

  /** A point on face `i`'s plane and within the face's bounds lies in the box. */
  lemma FacePointOnBox(box: Primitive, i: int, pt: Vec3)
    requires BoxShaped(box) && WellFormed(box) && 0 <= i < 6
    requires Dot(box.planes[i].normal, pt) == box.planes[i].d && InFace(box, i, pt)
    ensures forall j :: 0 <= j < 3 ==> box.minPt[j] <= pt[j] <= box.maxPt[j]
  {
    BoxFacePlane(box, i, pt);
    forall j | 0 <= j < 3
      ensures box.minPt[j] <= pt[j] <= box.maxPt[j]
    {
      if j != i / 2 {
        assert InFaceBand(box, pt, j);
      }
    }
  }

  /**
   * The converse of `BoxHitOnBox`: a ray that crosses face `i`'s corner coordinate at
   * `t >= 0`, not parallel to that face and within the face's bounds, records `t`.
   */
  lemma BoxRecordsEveryHit(box: Primitive, ray: Ray, i: int, t: real)
    requires BoxShaped(box) && WellFormed(box) && 0 <= i < 6 && 0.0 <= t
    requires ray.direction[i / 2] != 0.0
    requires GetPoint(ray, t)[i / 2] == (if i % 2 == 0 then box.minPt else box.maxPt)[i / 2]
    requires InFace(box, i, GetPoint(ray, t))
    ensures BoxHits(box, ray).Some? && t in BoxHits(box, ray).value
  {
    var pl := box.planes[i];
    BoxFacePlane(box, i, GetPoint(ray, t));
    BoxFacePlane(box, i, ray.direction);
    DotSymmetric(pl.normal, ray.direction);
    PlaneHitUnique(pl.normal, pl.d, ray, t);
    assert FaceHit(box, ray, i) == Some(t);
  }

  // ---------------------------------------------------------------------------
  // Cylinder along the Y axis
  // ---------------------------------------------------------------------------

  /** `epsilon` of `CylinderY.rayHit`. */
  const Epsilon: real := 0.0001

  /** `a` of the side quadratic: the squared horizontal length of the direction. */
  function SideA(ray: Ray): real
  {
    ray.direction[0] * ray.direction[0] + ray.direction[2] * ray.direction[2]
  }

  /** `b` of the side quadratic. */
  function SideB(base: Vec3, ray: Ray): real
  {
    var o := ray.origin;
    var d := ray.direction;
    2.0 * (-base[0] * d[0] - base[2] * d[2] + o[0] * d[0] + o[2] * d[2])
  }

  /** `c` of the side quadratic. */
  function SideC(base: Vec3, radius: real, ray: Ray): real
  {
    var o := ray.origin;
    -2.0 * base[0] * o[0] - 2.0 * base[2] * o[2] + base[0] * base[0] + base[2] * base[2]
      + o[0] * o[0] + o[2] * o[2] - RadiusSq(radius)
  }

  /** `inner` before its square root is taken: the discriminant `b^2 - 4ac`. */
  function Discriminant(base: Vec3, radius: real, ray: Ray): real
  {
    SideB(base, ray) * SideB(base, ray) - 4.0 * SideA(ray) * SideC(base, radius, ray)
  }

  /** The squared horizontal distance of `p` from the cylinder's axis. */
  function RadialSq(base: Vec3, p: Vec3): real
  {
    (p[0] - base[0]) * (p[0] - base[0]) + (p[2] - base[2]) * (p[2] - base[2])
  }

  /** The height band a side hit must fall in, widened by `epsilon` at both ends. */
  predicate InBand(base: Vec3, height: real, y: real)
  {
    y >= base[1] - Epsilon && y <= base[1] + height + Epsilon
  }

  /** A side root is kept when it lies ahead of the origin and within the band. */
  function SideHit(base: Vec3, height: real, ray: Ray, root: real): (r: seq<real>)
    ensures r == [] || (r == [root] && 0.0 < root && InBand(base, height, GetPoint(ray, root)[1]))
  {
    if root > 0.0 && InBand(base, height, GetPoint(ray, root)[1]) then [root] else []
  }

  /** A cap plane's hit is kept when its point is strictly inside the radius. */
  function CapHit(base: Vec3, radius: real, normal: Vec3, d: real, ray: Ray): (r: seq<real>)
    ensures r == [] || (PlaneHits(normal, d, ray).Some? && r == PlaneHits(normal, d, ray).value
      && RadialSq(base, GetPoint(ray, r[0])) < RadiusSq(radius))
  {
    match PlaneHits(normal, d, ray)
    case None => []
    case Some(ts) => if RadialSq(base, GetPoint(ray, ts[0])) < RadiusSq(radius) then [ts[0]] else []
  }

  /** The two roots `(-b + sqrt(inner)) / 2a` and `(-b - sqrt(inner)) / 2a`, far root first. */
  function SideRoot(sqrt: real -> real, base: Vec3, radius: real, ray: Ray, far: bool): (t: real)
    requires IsSqrt(sqrt)
    requires Discriminant(base, radius, ray) >= 0.0 && 2.0 * SideA(ray) >= Epsilon
    ensures SideA(ray) * t * t + SideB(base, ray) * t + SideC(base, radius, ray) == 0.0
  {
    var s := sqrt(Discriminant(base, radius, ray));
    var t := if far then (-SideB(base, ray) + s) / (2.0 * SideA(ray)) else (-SideB(base, ray) - s) / (2.0 * SideA(ray));
    SideRootSolves(sqrt, base, radius, ray, t);
    t
  }

  /** A value the quadratic formula gives for the side quadratic solves it. */
  lemma SideRootSolves(sqrt: real -> real, base: Vec3, radius: real, ray: Ray, t: real)
    requires IsSqrt(sqrt)
    requires Discriminant(base, radius, ray) >= 0.0 && 2.0 * SideA(ray) >= Epsilon
    requires var s := sqrt(Discriminant(base, radius, ray));
      t == (-SideB(base, ray) + s) / (2.0 * SideA(ray)) || t == (-SideB(base, ray) - s) / (2.0 * SideA(ray))
    ensures SideA(ray) * t * t + SideB(base, ray) * t + SideC(base, radius, ray) == 0.0
  {
    QuadraticRoot(SideA(ray), SideB(base, ray), SideC(base, radius, ray), sqrt(Discriminant(base, radius, ray)), t);
  }

  /**
   * `CylinderY.rayHit`: no result for a negative discriminant or a nearly vertical ray
   * (`2a < epsilon`); otherwise the kept side roots (far, then near), then the kept hits
   * of the top and bottom caps, and no result when nothing was kept. The cap planes are
   * `Plane((0,1,0), base.y + h)` and `Plane((0,-1,0), -base.y)`, whose normals are
   * already unit (`AxisNormalized`).
   */
  function CylinderHits(sqrt: real -> real, base: Vec3, height: real, radius: real, ray: Ray): (r: Option<seq<real>>)
    requires IsSqrt(sqrt)
    ensures Discriminant(base, radius, ray) < 0.0 || 2.0 * SideA(ray) < Epsilon ==> r.None?
    ensures ray.direction[0] == 0.0 && ray.direction[2] == 0.0 ==> r.None?
    ensures r.Some? ==> 1 <= |r.value| <= 4 && forall t :: t in r.value ==> 0.0 <= t
    ensures Discriminant(base, radius, ray) >= 0.0 && 2.0 * SideA(ray) >= Epsilon ==>
      (r.None? <==> CylinderKept(sqrt, base, height, radius, ray) == [])
    ensures r.Some? ==>
      Discriminant(base, radius, ray) >= 0.0 && 2.0 * SideA(ray) >= Epsilon
      && r.value == CylinderKept(sqrt, base, height, radius, ray)
  {
    // A ray with no horizontal component has `a == 0`, so it takes the early return.
    assert ray.direction[0] == 0.0 && ray.direction[2] == 0.0 ==> SideA(ray) == 0.0;
    if Discriminant(base, radius, ray) < 0.0 || 2.0 * SideA(ray) < Epsilon then None
    else
      var hs := CylinderKept(sqrt, base, height, radius, ray);
      if |hs| == 0 then None else Some(hs)
  }

  /** The distances the cylinder keeps once past its early return: sides, top cap, bottom cap. */
  function CylinderKept(sqrt: real -> real, base: Vec3, height: real, radius: real, ray: Ray): (r: seq<real>)
    requires IsSqrt(sqrt)
    requires Discriminant(base, radius, ray) >= 0.0 && 2.0 * SideA(ray) >= Epsilon
    ensures |r| <= 4 && forall t :: t in r ==> 0.0 <= t
    ensures forall t :: t in r ==>
      || ((t == SideRoot(sqrt, base, radius, ray, true) || t == SideRoot(sqrt, base, radius, ray, false))
          && InBand(base, height, GetPoint(ray, t)[1]))
      || RadialSq(base, GetPoint(ray, t)) < RadiusSq(radius)
  {
    SideHit(base, height, ray, SideRoot(sqrt, base, radius, ray, true))
      + SideHit(base, height, ray, SideRoot(sqrt, base, radius, ray, false))
      + CapHit(base, radius, UnitY, base[1] + height, ray)
      + CapHit(base, radius, NegUnitY, -base[1], ray)
  }

  /** `t = (-b +- s) / 2a` with `s^2 = b^2 - 4ac` and `a != 0` is a root of `a t^2 + b t + c`. */
  lemma QuadraticRoot(a: real, b: real, c: real, s: real, t: real)
    requires a != 0.0 && s * s == b * b - 4.0 * a * c
    requires t == (-b + s) / (2.0 * a) || t == (-b - s) / (2.0 * a)
    ensures a * t * t + b * t + c == 0.0
  {
    var u := 2.0 * a * t;
    assert u == -b + s || u == -b - s;
    assert (u + b) * (u + b) == s * s;
    assert 4.0 * a * (a * t * t + b * t + c) == (u + b) * (u + b) - b * b + 4.0 * a * c;
    ZeroFactor(4.0 * a, a * t * t + b * t + c);
  }

  /** At a root `t` of `a t^2 + b t + c`, `(2at + b)^2` is the discriminant `b^2 - 4ac`. */
  lemma RootDiscriminant(a: real, b: real, c: real, t: real)
    requires a * t * t + b * t + c == 0.0
    ensures (2.0 * a * t + b) * (2.0 * a * t + b) == b * b - 4.0 * a * c
  {
    assert (2.0 * a * t + b) * (2.0 * a * t + b) == 4.0 * a * (a * t * t + b * t + c) + b * b - 4.0 * a * c;
  }

  /**
   * The converse of `QuadraticRoot`: a root `t` with `a != 0` is `(-b +- s) / 2a` for the
   * non-negative square root `s` of the discriminant.
   */
  lemma QuadraticRootIsOne(a: real, b: real, c: real, t: real, s: real)
    requires a != 0.0 && a * t * t + b * t + c == 0.0
    requires 0.0 <= s && s * s == b * b - 4.0 * a * c
    ensures t == (-b + s) / (2.0 * a) || t == (-b - s) / (2.0 * a)
  {
    var u := 2.0 * a * t + b;
    RootDiscriminant(a, b, c, t);
    SquareRoots(u, s);
    assert u - b == 2.0 * a * t;
  }

  lemma ZeroFactor(x: real, y: real)
    requires x != 0.0 && x * y == 0.0
    ensures y == 0.0
  {
    assert y == (x * y) / x;
  }

  /** The side quadratic measures the horizontal distance from the axis of the point at `t`. */
  lemma SideQuadratic(base: Vec3, radius: real, ray: Ray, t: real)
    ensures RadialSq(base, GetPoint(ray, t)) - RadiusSq(radius)
      == SideA(ray) * t * t + SideB(base, ray) * t + SideC(base, radius, ray)
  {
    var p := GetPoint(ray, t);
    assert p[0] == ray.origin[0] + ray.direction[0] * t;
    assert p[2] == ray.origin[2] + ray.direction[2] * t;
  }

  /** Both side roots lie on the infinite cylinder of the given radius. */
  lemma SideRootOnSide(sqrt: real -> real, base: Vec3, radius: real, ray: Ray, far: bool)
    requires IsSqrt(sqrt)
    requires Discriminant(base, radius, ray) >= 0.0 && 2.0 * SideA(ray) >= Epsilon
    ensures RadialSq(base, GetPoint(ray, SideRoot(sqrt, base, radius, ray, far))) == RadiusSq(radius)
  {
    SideQuadratic(base, radius, ray, SideRoot(sqrt, base, radius, ray, far));
  }

  /** A kept cap hit lies on its cap plane, strictly inside the radius. */
  lemma CapHitOnCap(base: Vec3, radius: real, normal: Vec3, d: real, ray: Ray)
    requires normal == UnitY || normal == NegUnitY
    requires CapHit(base, radius, normal, d, ray) != []
    ensures var p := GetPoint(ray, CapHit(base, radius, normal, d, ray)[0]);
      RadialSq(base, p) < RadiusSq(radius) && (if normal == UnitY then p[1] == d else -p[1] == d)
  {
    var p := GetPoint(ray, CapHit(base, radius, normal, d, ray)[0]);
    PlaneHitOnPlane(normal, d, ray);
    Dot3(normal, p);
  }

  /**
   * Every distance the cylinder records lands on it: on the side, within the widened band,
   * or on a cap plane strictly inside the radius.
   */
  lemma CylinderHitOnSurface(sqrt: real -> real, base: Vec3, height: real, radius: real, ray: Ray, t: real)
    requires IsSqrt(sqrt)
    requires CylinderHits(sqrt, base, height, radius, ray).Some?
    requires t in CylinderHits(sqrt, base, height, radius, ray).value
    ensures var p := GetPoint(ray, t);
      || (RadialSq(base, p) == RadiusSq(radius) && InBand(base, height, p[1]))
      || (RadialSq(base, p) < RadiusSq(radius) && (p[1] == base[1] + height || p[1] == base[1]))
  {
    var s1 := SideHit(base, height, ray, SideRoot(sqrt, base, radius, ray, true));
    var s2 := SideHit(base, height, ray, SideRoot(sqrt, base, radius, ray, false));
    var c1 := CapHit(base, radius, UnitY, base[1] + height, ray);
    var c2 := CapHit(base, radius, NegUnitY, -base[1], ray);
    assert t in CylinderKept(sqrt, base, height, radius, ray);
    assert t in s1 + s2 + c1 + c2;
    if t in s1 {
      SideRootOnSide(sqrt, base, radius, ray, true);
    } else if t in s2 {
      SideRootOnSide(sqrt, base, radius, ray, false);
    } else if t in c1 {
      CapHitOnCap(base, radius, UnitY, base[1] + height, ray);
    } else {
      CapHitOnCap(base, radius, NegUnitY, -base[1], ray);
    }
  }

  /**
   * The converse of `CylinderHitOnSurface` for the side: a point ahead of the origin on the
   * infinite cylinder and within the widened band is recorded, unless the ray is nearly
   * vertical (`2a < epsilon`).
   */
  lemma CylinderRecordsSideHit(sqrt: real -> real, base: Vec3, height: real, radius: real, ray: Ray, t: real)
    requires IsSqrt(sqrt) && 0.0 < t
    requires RadialSq(base, GetPoint(ray, t)) == RadiusSq(radius) && InBand(base, height, GetPoint(ray, t)[1])
    ensures 2.0 * SideA(ray) < Epsilon
      || (CylinderHits(sqrt, base, height, radius, ray).Some? && t in CylinderHits(sqrt, base, height, radius, ray).value)
  {
    if 2.0 * SideA(ray) >= Epsilon {
      SideQuadratic(base, radius, ray, t);
      SideRootsAreAll(sqrt, base, radius, ray, t);
      assert t in CylinderKept(sqrt, base, height, radius, ray);
    }
  }

  /** Every root of the side quadratic is one of the two side roots. */
  lemma SideRootsAreAll(sqrt: real -> real, base: Vec3, radius: real, ray: Ray, t: real)
    requires IsSqrt(sqrt) && 2.0 * SideA(ray) >= Epsilon
    requires SideA(ray) * t * t + SideB(base, ray) * t + SideC(base, radius, ray) == 0.0
    ensures Discriminant(base, radius, ray) >= 0.0
    ensures t == SideRoot(sqrt, base, radius, ray, true) || t == SideRoot(sqrt, base, radius, ray, false)
  {
    var a, b, c := SideA(ray), SideB(base, ray), SideC(base, radius, ray);
    RootDiscriminant(a, b, c, t);
    var u := 2.0 * a * t + b;
    if u != 0.0 {
      SquarePositive(u);
    }
    var disc := Discriminant(base, radius, ray);
    assert disc == b * b - 4.0 * a * c;
    var s := sqrt(disc);
    QuadraticRootIsOne(a, b, c, t, s);
    assert SideRoot(sqrt, base, radius, ray, true) == (-b + s) / (2.0 * a);
    assert SideRoot(sqrt, base, radius, ray, false) == (-b - s) / (2.0 * a);
  }

  /**
   * The converse of `CylinderHitOnSurface` for the caps: a point at or ahead of the origin
   * on the top or bottom cap plane, strictly inside the radius, is recorded, unless the
   * cylinder returned early or the ray runs parallel to the caps.
   */
  lemma CylinderRecordsCapHit(sqrt: real -> real, base: Vec3, height: real, radius: real, ray: Ray, t: real)
    requires IsSqrt(sqrt) && 0.0 <= t
    requires RadialSq(base, GetPoint(ray, t)) < RadiusSq(radius)
    requires GetPoint(ray, t)[1] == base[1] + height || GetPoint(ray, t)[1] == base[1]
    ensures Discriminant(base, radius, ray) < 0.0 || 2.0 * SideA(ray) < Epsilon || ray.direction[1] == 0.0
      || (CylinderHits(sqrt, base, height, radius, ray).Some? && t in CylinderHits(sqrt, base, height, radius, ray).value)
  {
    if Discriminant(base, radius, ray) >= 0.0 && 2.0 * SideA(ray) >= Epsilon && ray.direction[1] != 0.0 {
      var p := GetPoint(ray, t);
      Dot3(UnitY, p);
      Dot3(NegUnitY, p);
      Dot3(ray.direction, UnitY);
      Dot3(ray.direction, NegUnitY);
      if p[1] == base[1] + height {
        PlaneHitUnique(UnitY, base[1] + height, ray, t);
        assert CapHit(base, radius, UnitY, base[1] + height, ray) == [t];
      } else {
        PlaneHitUnique(NegUnitY, -base[1], ray, t);
        assert CapHit(base, radius, NegUnitY, -base[1], ray) == [t];
      }
      assert t in CylinderKept(sqrt, base, height, radius, ray);
    }
  }

  // ---------------------------------------------------------------------------
  // Normals and dispatch
  // ---------------------------------------------------------------------------

  /**
   * `getNormal(point)`: a sphere's radial direction over the radius; a plane's stored
   * normal; a box's first face whose test holds in the order -X, +X, -Y, +Y, -Z, else +Z;
   * a cylinder's cap normal below its base or above its top, else the horizontal radial
   * direction over the radius.
   */
  function Normal(obj: Primitive, p: Vec3): (n: Vec3)
    requires WellFormed(obj)
    ensures obj.Sphere? ==> forall i :: 0 <= i < 3 ==> n[i] * obj.radius == p[i] - obj.center[i]
    ensures obj.Plane? ==> n == obj.normal
    ensures obj.AABB? ==> exists k :: 0 <= k < 6 && n == obj.planes[k].normal
    ensures obj.CylinderY? && p[1] <= obj.base[1] ==> n == NegUnitY
    ensures obj.CylinderY? && obj.base[1] < p[1] && obj.base[1] + obj.height <= p[1] ==> n == UnitY
    ensures obj.CylinderY? && obj.base[1] < p[1] < obj.base[1] + obj.height ==>
      (n[1] == 0.0 && n[0] * obj.radius == p[0] - obj.base[0] && n[2] * obj.radius == p[2] - obj.base[2])
  {
    match obj
    case Sphere(center, radius, _) => Over(Minus(p, center), radius)
    case Plane(normal, _, _) => normal
    case AABB(mn, mx, planes, _) =>
      if p[0] <= mn[0] then planes[0].normal
      else if p[0] >= mx[0] then planes[1].normal
      else if p[1] <= mn[1] then planes[2].normal
      else if p[1] >= mx[1] then planes[3].normal
      else if p[2] <= mn[2] then planes[4].normal
      else planes[5].normal
    case CylinderY(base, height, radius, _) =>
      if p[1] <= base[1] then NegUnitY
      else if p[1] >= base[1] + height then UnitY
      else Over(Minus(p, [base[0], p[1], base[2]]), radius)
  }

  /**
   * The test `getNormal` makes of a box for face `k`: at or below the minimum on the face's
   * axis for an even face, at or above the maximum for an odd one.
   */
  predicate BeyondFace(box: Primitive, q: Vec3, k: int)
    requires box.AABB? && 0 <= k < 6
  {
    if k % 2 == 0 then q[k / 2] <= box.minPt[k / 2] else q[k / 2] >= box.maxPt[k / 2]
  }

  /**
   * The box's face priority: the normal is that of the first face, in the order -X, +X, -Y,
   * +Y, -Z, whose test holds, and that of +Z when none does. At an edge or a corner, where
   * several tests hold, the earliest face wins.
   */
  lemma BoxFacePriority(box: Primitive, q: Vec3, k: int)
    requires box.AABB? && WellFormed(box) && 0 <= k < 6
    requires k < 5 ==> BeyondFace(box, q, k)
    requires forall j :: 0 <= j < k ==> !BeyondFace(box, q, j)
    ensures Normal(box, q) == box.planes[k].normal
  {
    assert k > 0 ==> !BeyondFace(box, q, 0);
    assert k > 1 ==> !BeyondFace(box, q, 1);
    assert k > 2 ==> !BeyondFace(box, q, 2);
    assert k > 3 ==> !BeyondFace(box, q, 3);
    assert k > 4 ==> !BeyondFace(box, q, 4);
  }

  /** On the sphere's surface the normal has unit length and points along `p - center` scaled by the radius. */
  lemma SphereNormalUnit(sphere: Primitive, p: Vec3)
    requires sphere.Sphere? && WellFormed(sphere)
    requires Dot(Minus(p, sphere.center), Minus(p, sphere.center)) == RadiusSq(sphere.radius)
    ensures Dot(Normal(sphere, p), Normal(sphere, p)) == 1.0
    ensures forall i :: 0 <= i < 3 ==> Normal(sphere, p)[i] * sphere.radius == p[i] - sphere.center[i]
  {
    var w := Minus(p, sphere.center);
    var r := sphere.radius;
    var n := Over(w, r);
    DotOver(w, r, n);
    DotSymmetric(w, n);
    DotOver(w, r, w);
    assert Dot(n, n) == (Dot(w, w) / r) / r;
    UnitQuotient(Dot(w, w), r);
  }

  /**
   * Away from edges and corners the face order does not matter: a point beyond face `k` on its
   * own axis and strictly inside the box on the other two gets face `k`'s normal.
   */
  lemma BoxNormalOfFace(box: Primitive, q: Vec3, k: int)
    requires BoxShaped(box) && WellFormed(box) && 0 <= k < 6
    requires forall j :: 0 <= j < 3 ==> box.minPt[j] < box.maxPt[j]
    requires BeyondFace(box, q, k)
    requires forall j :: 0 <= j < 3 && j != k / 2 ==> box.minPt[j] < q[j] < box.maxPt[j]
    ensures Normal(box, q) == BoxNormals[k]
  {
  }

  /**
   * `RayHitResult.getNormal`: the primitive's normal at the hit point, except that for a box
   * the point is first moved back 0.001 along the ray.
   */
  function HitNormal(ray: Ray, obj: Primitive, p: Vec3): (n: Vec3)
    requires WellFormed(obj)
    ensures !obj.AABB? ==> n == Normal(obj, p)
    ensures obj.AABB? ==> exists k :: 0 <= k < 6 && n == obj.planes[k].normal
    ensures obj.AABB? ==> n == Normal(obj, Minus(p, Times(ray.direction, 0.001)))
  {
    if obj.AABB? then Normal(obj, Minus(p, Times(ray.direction, 0.001))) else Normal(obj, p)
  }

  /**
   * A ray that reaches face `k` of a box from outside (moving into the box along that face's
   * axis) gets face `k`'s normal, provided the backed-off point is strictly inside the box on
   * the other two axes: the 0.001 step back keeps a hit exactly on the face out of the tests
   * of the faces before it.
   */
  lemma BoxHitNormal(box: Primitive, ray: Ray, p: Vec3, k: int)
    requires BoxShaped(box) && WellFormed(box) && 0 <= k < 6
    requires forall j :: 0 <= j < 3 ==> box.minPt[j] < box.maxPt[j]
    requires k % 2 == 0 ==> p[k / 2] == box.minPt[k / 2] && ray.direction[k / 2] > 0.0
    requires k % 2 == 1 ==> p[k / 2] == box.maxPt[k / 2] && ray.direction[k / 2] < 0.0
    requires var q := Minus(p, Times(ray.direction, 0.001));
      forall j :: 0 <= j < 3 && j != k / 2 ==> box.minPt[j] < q[j] < box.maxPt[j]
    ensures HitNormal(ray, box, p) == BoxNormals[k]
  {
    BoxNormalOfFace(box, Minus(p, Times(ray.direction, 0.001)), k);
  }

  /** A point strictly between the cylinder's caps and on its side has a horizontal unit normal. */
  lemma CylinderSideNormal(cyl: Primitive, p: Vec3)
    requires cyl.CylinderY? && WellFormed(cyl)
    requires cyl.base[1] < p[1] < cyl.base[1] + cyl.height
    requires RadialSq(cyl.base, p) == RadiusSq(cyl.radius)
    ensures Normal(cyl, p)[1] == 0.0
    ensures Dot(Normal(cyl, p), Normal(cyl, p)) == 1.0
  {
    var w := Minus(p, [cyl.base[0], p[1], cyl.base[2]]);
    var r := cyl.radius;
    var n := Over(w, r);
    Dot3(w, w);
    assert Dot(w, w) == RadialSq(cyl.base, p);
    DotOver(w, r, n);
    DotSymmetric(w, n);
    DotOver(w, r, w);
    UnitQuotient(Dot(w, w), r);
  }

  /** `rayHit` of any primitive: never a distance behind the ray's origin. */
  function Hits(sqrt: real -> real, obj: Primitive, ray: Ray): (r: Option<seq<real>>)
    requires IsSqrt(sqrt) && WellFormed(obj)
    ensures r.Some? ==> forall t :: t in r.value ==> 0.0 <= t
    ensures r.Some? && !obj.Sphere? ==> |r.value| >= 1
  {
    match obj
    case Sphere(center, radius, _) => SphereHits(sqrt, center, radius, ray)
    case Plane(normal, d, _) => PlaneHits(normal, d, ray)
    case AABB(_, _, _, _) => BoxHits(obj, ray)
    case CylinderY(base, height, radius, _) => CylinderHits(sqrt, base, height, radius, ray)
  }
}

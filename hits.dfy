/**
 * `RayHitResult` of objects3d.py and the `rayHit` methods that fill it.
 *
 * A hit result is an object: `appendIntersection` appends to its two parallel lists in
 * place, and the engine later collapses the nearest result's lists in place. Each `rayHit`
 * method allocates a fresh result and is proved to record exactly the distances of the
 * corresponding specification function of module `Primitives`.
 */
module HitResults {
  import opened Wrappers
  import opened RealMath
  import opened Math3D
  import opened Rays
  import opened Primitives

  /** The ray, the primitive it hit, and the intersection points with their distances. */
  class RayHitResult {
    const ray: Ray
    const obj: Primitive
    var points: seq<Vec3>
    var dists: seq<real>

    /** The two lists stay parallel, and each point is the ray's point at its distance. */
    predicate Valid()
      reads this
    {
      |points| == |dists| && forall i :: 0 <= i < |dists| ==> points[i] == GetPoint(ray, dists[i])
    }

    /** `RayHitResult(ray, obj)`: both lists start empty. */
    constructor (ray: Ray, obj: Primitive)
      ensures this.ray == ray && this.obj == obj
      ensures points == [] && dists == [] && Valid()
    {
      this.ray := ray;
      this.obj := obj;
      points := [];
      dists := [];
    }

    /** `appendIntersection(dist)`: appends the distance and the ray's point at it, keeping `Valid`. */
    method AppendIntersection(dist: real)
      modifies this
      ensures dists == old(dists) + [dist]
      ensures points == old(points) + [GetPoint(ray, dist)]
      ensures old(Valid()) ==> Valid()
    {
      points := points + [GetPoint(ray, dist)];
      dists := dists + [dist];
    }

    /** Cuts both lists down to the entry at `index`, in place, as `rayCast` does with its winner. */
    method KeepOnly(index: nat)
      requires Valid() && index < |dists|
      modifies this
      ensures points == [old(points[index])] && dists == [old(dists[index])]
      ensures Valid()
    {
      points := [points[index]];
      dists := [dists[index]];
    }

    /** `getNormal(index)`: the primitive's normal at the point of the `index`-th distance. */
    function GetNormal(index: int): (n: Vec3)
      reads this
      requires WellFormed(obj) && 0 <= index < |points|
      ensures Valid() ==> n == HitNormal(ray, obj, GetPoint(ray, dists[index]))
    {
      HitNormal(ray, obj, points[index])
    }
  }

  /** `r` is a valid result of `ray` on `obj` holding exactly the distances `ds`. */
  predicate Records(r: RayHitResult, ray: Ray, obj: Primitive, ds: seq<real>)
    reads r
  {
    r.Valid() && r.ray == ray && r.obj == obj && r.dists == ds
  }

  /** Appends every distance of `ds`, in order. */
  method AppendAll(r: RayHitResult, ds: seq<real>)
    requires r.Valid()
    modifies r
    ensures r.Valid() && r.dists == old(r.dists) + ds
  {
    for k := 0 to |ds|
      invariant r.Valid() && r.dists == old(r.dists) + ds[..k]
    {
      r.AppendIntersection(ds[k]);
    }
  }

  /** `Sphere.rayHit`. */
  method SphereRayHit(sqrt: real -> real, sphere: Primitive, ray: Ray) returns (r: RayHitResult?)
    requires IsSqrt(sqrt) && sphere.Sphere?
    ensures var spec := SphereHits(sqrt, sphere.center, sphere.radius, ray);
      (r == null <==> spec.None?) && (r != null ==> fresh(r) && Records(r, ray, sphere, spec.value))
  {
    var toCenter := Minus(sphere.center, ray.origin);
    var projDist := Dot(toCenter, ray.direction);
    var closestDistSq := Dot(toCenter, toCenter) - projDist * projDist;
    var radiusSq := RadiusSq(sphere.radius);
    assert toCenter == ToCenter(sphere.center, ray) && projDist == ProjDist(sphere.center, ray);
    assert closestDistSq == ClosestDistSq(sphere.center, ray);
    if closestDistSq >= radiusSq {
      return null;
    }
    var f := HalfChord(sqrt, sphere.center, sphere.radius, ray);
    ghost var spec := SphereHits(sqrt, sphere.center, sphere.radius, ray).value;
    r := new RayHitResult(ray, sphere);
    if MagnitudeSquared(toCenter) > radiusSq {
      assert spec == (if projDist - f > 0.0 then [projDist - f] else []) + (if projDist + f > 0.0 then [projDist + f] else []);
      if projDist - f > 0.0 {
        r.AppendIntersection(projDist - f);
      }
      if projDist + f > 0.0 {
        r.AppendIntersection(projDist + f);
      }
    } else {
      assert spec == [projDist + f];
      r.AppendIntersection(projDist + f);
    }
  }

  /** `Plane.rayHit`. */
  method PlaneRayHit(plane: Primitive, ray: Ray) returns (r: RayHitResult?)
    requires plane.Plane?
    ensures var spec := PlaneHits(plane.normal, plane.d, ray);
      (r == null <==> spec.None?) && (r != null ==> fresh(r) && Records(r, ray, plane, spec.value))
  {
    var den := Dot(ray.direction, plane.normal);
    if den == 0.0 {
      return null;
    }
    var num := plane.d - Dot(ray.origin, plane.normal);
    var t := num / den;
    if t < 0.0 {
      return null;
    }
    r := new RayHitResult(ray, plane);
    r.AppendIntersection(t);
  }

  /** The inner loop of `AABB.rayHit`: the hit point is checked against the two axes other than face `i`'s. */
  method FaceBoundsCheck(box: Primitive, i: int, hitPoint: Vec3) returns (inBounds: bool)
    requires box.AABB? && 0 <= i < 6
    ensures inBounds <==> InFace(box, i, hitPoint)
  {
    var currentDimension := i / 2;
    inBounds := true;
    for j := 0 to 3
      invariant forall m :: 0 <= m < j && m != currentDimension ==> InFaceBand(box, hitPoint, m)
    {
      if j == currentDimension {
        continue;
      }
      if hitPoint[j] < box.minPt[j] || hitPoint[j] > box.maxPt[j] {
        assert !InFaceBand(box, hitPoint, j);
        inBounds := false;
        break;
      }
    }
  }

  /** One pass of the loop of `AABB.rayHit`: face `i`'s plane distance when the plane is hit inside the face. */
  method FaceRayHit(box: Primitive, ray: Ray, i: int) returns (hit: Option<real>)
    requires box.AABB? && WellFormed(box) && 0 <= i < 6
    ensures hit == FaceHit(box, ray, i)
  {
    var planeResult := PlaneRayHit(box.planes[i], ray);
    if planeResult == null {
      return None;
    }
    var hitPoint := planeResult.points[0];
    var hitDist := planeResult.dists[0];
    var inBounds := FaceBoundsCheck(box, i, hitPoint);
    hit := if inBounds then Some(hitDist) else None;
  }

  /** `AABB.rayHit`: each face plane is tried, then its hit point is checked against the other two axes. */
  method BoxRayHit(box: Primitive, ray: Ray) returns (r: RayHitResult?)
    requires box.AABB? && WellFormed(box)
    ensures var spec := BoxHits(box, ray);
      (r == null <==> spec.None?) && (r != null ==> fresh(r) && Records(r, ray, box, spec.value))
  {
    var hitDistances: seq<real> := [];
    for i := 0 to 6
      invariant hitDistances == BoxHitsUpTo(box, ray, i)
    {
      var hit := FaceRayHit(box, ray, i);
      assert BoxHitsUpTo(box, ray, i + 1) == hitDistances + match hit case None => [] case Some(t) => [t];
      if hit.Some? {
        hitDistances := hitDistances + [hit.value];
      }
    }
    if |hitDistances| == 0 {
      r := null;
    } else {
      r := new RayHitResult(ray, box);
      AppendAll(r, hitDistances);
    }
  }

  /** One side root of `CylinderY.rayHit`: appended when ahead of the origin and within the band. */
  method KeepSideRoot(result: RayHitResult, base: Vec3, height: real, root: real) returns (kept: bool)
    requires result.Valid()
    modifies result
    ensures result.Valid()
    ensures result.dists == old(result.dists) + SideHit(base, height, result.ray, root)
    ensures kept <==> SideHit(base, height, result.ray, root) != []
  {
    kept := false;
    if root > 0.0 {
      var p := GetPoint(result.ray, root);
      if p[1] >= base[1] - Epsilon && p[1] <= base[1] + height + Epsilon {
        kept := true;
        result.AppendIntersection(root);
      }
    }
  }

  /**
   * One cap of `CylinderY.rayHit`: the cap plane `normal . P == d` is built and its hit is
   * appended when strictly inside the radius.
   */
  method KeepCapHit(sqrt: real -> real, result: RayHitResult, base: Vec3, radius: real, normal: Vec3, d: real,
                    material: Material) returns (kept: bool)
    requires IsSqrt(sqrt) && result.Valid() && (normal == UnitY || normal == NegUnitY)
    modifies result
    ensures result.Valid()
    ensures result.dists == old(result.dists) + CapHit(base, radius, normal, d, result.ray)
    ensures kept <==> CapHit(base, radius, normal, d, result.ray) != []
  {
    assert normal == BoxNormals[3] || normal == BoxNormals[2];
    AxisNormalized(sqrt, normal);
    var cap := NewPlane(sqrt, normal, d, material);
    assert cap.normal == normal && cap.d == d;
    kept := false;
    ghost var spec := PlaneHits(normal, d, result.ray);
    var capResult := PlaneRayHit(cap, result.ray);
    if capResult != null {
      assert spec.Some? && capResult.dists == spec.value;
      var p := capResult.points[0];
      assert p == GetPoint(result.ray, spec.value[0]);
      if RadialSq(base, p) < RadiusSq(radius) {
        result.AppendIntersection(capResult.dists[0]);
        kept := true;
      }
    }
  }

  /** `CylinderY.rayHit`: the side quadratic's roots, then the two cap planes. */
  method CylinderRayHit(sqrt: real -> real, cyl: Primitive, ray: Ray) returns (r: RayHitResult?)
    requires IsSqrt(sqrt) && cyl.CylinderY?
    ensures var spec := CylinderHits(sqrt, cyl.base, cyl.height, cyl.radius, ray);
      (r == null <==> spec.None?) && (r != null ==> fresh(r) && Records(r, ray, cyl, spec.value))
  {
    var base, height := cyl.base, cyl.height;
    var inner := Discriminant(base, cyl.radius, ray);
    var den := 2.0 * SideA(ray);
    if inner < 0.0 || den < Epsilon {
      return null;
    }
    var root1 := SideRoot(sqrt, base, cyl.radius, ray, true);
    var root2 := SideRoot(sqrt, base, cyl.radius, ray, false);
    var result := new RayHitResult(ray, cyl);
    ghost var side1 := SideHit(base, height, ray, root1);
    ghost var side2 := SideHit(base, height, ray, root2);
    ghost var top := CapHit(base, cyl.radius, UnitY, base[1] + height, ray);
    ghost var bottom := CapHit(base, cyl.radius, NegUnitY, -base[1], ray);
    assert CylinderKept(sqrt, base, height, cyl.radius, ray) == side1 + side2 + top + bottom;
    var kept1 := KeepSideRoot(result, base, height, root1);
    assert result.dists == side1;
    var kept2 := KeepSideRoot(result, base, height, root2);
    assert result.dists == side1 + side2;
    var kept3 := KeepCapHit(sqrt, result, base, cyl.radius, UnitY, base[1] + height, cyl.material);
    assert result.dists == side1 + side2 + top;
    var kept4 := KeepCapHit(sqrt, result, base, cyl.radius, NegUnitY, -base[1], cyl.material);
    assert result.dists == side1 + side2 + top + bottom;
    var hs := result.dists;
    var oneHit := kept1 || kept2 || kept3 || kept4;
    assert oneHit <==> |hs| != 0;
    if oneHit {
      r := result;
    } else {
      r := null;
    }
  }

  /** `obj.rayHit(R)` for any primitive. */
  method RayHit(sqrt: real -> real, obj: Primitive, ray: Ray) returns (r: RayHitResult?)
    requires IsSqrt(sqrt) && WellFormed(obj)
    ensures var spec := Hits(sqrt, obj, ray);
      (r == null <==> spec.None?) && (r != null ==> fresh(r) && Records(r, ray, obj, spec.value))
  {
    match obj
    case Sphere(_, _, _) => r := SphereRayHit(sqrt, obj, ray);
    case Plane(_, _, _) => r := PlaneRayHit(obj, ray);
    case AABB(_, _, _, _) => r := BoxRayHit(obj, ray);
    case CylinderY(_, _, _, _) => r := CylinderRayHit(sqrt, obj, ray);
  }
}

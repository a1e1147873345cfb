/**
 * What `Raytracer.rayCast` of raytracer.py finds, stated on values.
 *
 * A camera or reflection ray collects the results of every primitive whose `rayHit` did
 * not return `None`, in the order of the object list, then picks the smallest distance
 * among them with a strict `<`, starting from the first distance of the LAST collected
 * result. A shadow ray instead stops at the first primitive with a distance whose square
 * is within the squared distance to the light.
 */
module Visibility {
  import opened Wrappers
  import opened RealMath
  import opened Math3D
  import opened Rays
  import opened Primitives

  /** A primitive whose `rayHit` gave a result, with the distances that result holds. */
  datatype Found = Found(obj: Primitive, dists: seq<real>)

  /** A candidate of the nearest-hit scan: distance `idx` of collected result `res`. */
  datatype Pos = Pos(res: nat, idx: nat)

  /** The nearest hit of a ray: the primitive and the distance along the ray. */
  datatype Hit = Hit(ray: Ray, obj: Primitive, dist: real)

  ghost predicate SceneObjects(sqrt: real -> real, objs: seq<Primitive>)
  {
    IsSqrt(sqrt) && forall o :: o in objs ==> WellFormed(o)
  }

  /** The `resultList` of a camera or reflection ray: every result `rayHit` returned, in object order. */
  function Collected(sqrt: real -> real, objs: seq<Primitive>, ray: Ray): (rs: seq<Found>)
    requires SceneObjects(sqrt, objs)
    ensures |rs| <= |objs|
    ensures forall j :: 0 <= j < |rs| ==> rs[j].obj in objs && Hits(sqrt, rs[j].obj, ray) == Some(rs[j].dists)
    decreases |objs|
  {
    if objs == [] then []
    else
      var prefix := objs[..|objs| - 1];
      var last := objs[|objs| - 1];
      assert forall o :: o in prefix ==> o in objs;
      var rest := Collected(sqrt, prefix, ray);
      match Hits(sqrt, last, ray)
      case None => rest
      case Some(ds) => rest + [Found(last, ds)]
  }

  /** Nothing is missed: every object `rayHit` gives a result for is collected with it. */
  lemma {:induction false} CollectedComplete(sqrt: real -> real, objs: seq<Primitive>, ray: Ray)
    requires SceneObjects(sqrt, objs)
    ensures forall o :: o in objs && Hits(sqrt, o, ray).Some? ==> Found(o, Hits(sqrt, o, ray).value) in Collected(sqrt, objs, ray)
    decreases |objs|
  {
    if objs != [] {
      var prefix := objs[..|objs| - 1];
      assert forall o :: o in objs ==> o in prefix || o == objs[|objs| - 1];
      CollectedComplete(sqrt, prefix, ray);
    }
  }

  /** Scanning one more object, the one at `i`, appends its result, if `rayHit` gave one. */
  lemma CollectedStep(sqrt: real -> real, objs: seq<Primitive>, i: nat, ray: Ray)
    requires SceneObjects(sqrt, objs) && i < |objs|
    ensures var rs := Collected(sqrt, objs[..i], ray);
      Collected(sqrt, objs[..i + 1], ray)
      == match Hits(sqrt, objs[i], ray) case None => rs case Some(ds) => rs + [Found(objs[i], ds)]
  {
    assert objs[..i + 1][..i] == objs[..i];
  }

  predicate ValidPos(rs: seq<Found>, p: Pos)
  {
    p.res < |rs| && p.idx < |rs[p.res].dists|
  }

  function Dist(rs: seq<Found>, p: Pos): real
    requires ValidPos(rs, p)
  {
    rs[p.res].dists[p.idx]
  }

  /** `p` comes before `q` in the scan order: by result, then by distance index. */
  predicate Before(p: Pos, q: Pos)
  {
    p.res < q.res || (p.res == q.res && p.idx < q.idx)
  }

  /**
   * The nested scan from position `(j, m)` on with incumbent `best`: a candidate replaces
   * the incumbent only when strictly nearer.
   */
  function Scan(rs: seq<Found>, j: nat, m: nat, best: Pos): (p: Pos)
    requires ValidPos(rs, best) && j <= |rs| && (j < |rs| ==> m <= |rs[j].dists|)
    ensures ValidPos(rs, p)
    decreases |rs| - j, if j < |rs| then |rs[j].dists| - m else 0
  {
    if j == |rs| then best
    else if m == |rs[j].dists| then Scan(rs, j + 1, 0, best)
    else Scan(rs, j, m + 1, if rs[j].dists[m] < Dist(rs, best) then Pos(j, m) else best)
  }

  /**
   * What the scan from `(j, m)` selects: nothing farther than the incumbent or than any
   * candidate from `(j, m)` on, and either the incumbent itself or a strictly nearer
   * candidate that is strictly nearer than every candidate scanned before it.
   */
  lemma {:induction false} ScanSelects(rs: seq<Found>, j: nat, m: nat, best: Pos)
    requires ValidPos(rs, best) && j <= |rs| && (j < |rs| ==> m <= |rs[j].dists|)
    ensures var p := Scan(rs, j, m, best);
      Dist(rs, p) <= Dist(rs, best)
      && (forall q :: ValidPos(rs, q) && !Before(q, Pos(j, m)) ==> Dist(rs, p) <= Dist(rs, q))
      && (p == best
          || (Dist(rs, p) < Dist(rs, best) && !Before(p, Pos(j, m))
              && forall q :: ValidPos(rs, q) && !Before(q, Pos(j, m)) && Before(q, p) ==> Dist(rs, p) < Dist(rs, q)))
    decreases |rs| - j, if j < |rs| then |rs[j].dists| - m else 0
  {
    if j == |rs| {
    } else if m == |rs[j].dists| {
      ScanSelects(rs, j + 1, 0, best);
      assert forall q :: ValidPos(rs, q) ==> (Before(q, Pos(j, m)) <==> Before(q, Pos(j + 1, 0)));
    } else {
      var next := if rs[j].dists[m] < Dist(rs, best) then Pos(j, m) else best;
      ScanSelects(rs, j, m + 1, next);
      assert forall q :: ValidPos(rs, q) && !Before(q, Pos(j, m)) ==> q == Pos(j, m) || !Before(q, Pos(j, m + 1));
    }
  }

  /** The scan has something to select from: the last collected result holds a distance. */
  predicate Selectable(rs: seq<Found>)
  {
    |rs| > 0 && |rs[|rs| - 1].dists| > 0
  }

  /** The first distance of the last collected result, the scan's first incumbent. */
  function Incumbent(rs: seq<Found>): (p: Pos)
    requires Selectable(rs)
    ensures ValidPos(rs, p)
  {
    Pos(|rs| - 1, 0)
  }

  /**
   * The winner of `rayCast`'s selection loop: a smallest distance; the first distance of
   * the last result exactly when that one is already smallest; otherwise the first smallest
   * distance in scan order.
   */
  function Nearest(rs: seq<Found>): (p: Pos)
    requires Selectable(rs)
    ensures ValidPos(rs, p)
    ensures forall q :: ValidPos(rs, q) ==> Dist(rs, p) <= Dist(rs, q)
    ensures p == Incumbent(rs) <==> forall q :: ValidPos(rs, q) ==> Dist(rs, Incumbent(rs)) <= Dist(rs, q)
    ensures p != Incumbent(rs) ==> forall q :: ValidPos(rs, q) && Before(q, p) ==> Dist(rs, p) < Dist(rs, q)
  {
    ScanSelects(rs, 0, 0, Incumbent(rs));
    Scan(rs, 0, 0, Incumbent(rs))
  }

  /**
   * A non-shadow `rayCast`: no hit when nothing was collected or when the last collected
   * result holds no distance, whatever the others hold; otherwise the nearest distance.
   */
  function Cast(sqrt: real -> real, objs: seq<Primitive>, ray: Ray): (h: Option<Hit>)
    requires SceneObjects(sqrt, objs)
    ensures var rs := Collected(sqrt, objs, ray); h.None? <==> !Selectable(rs)
    ensures h.Some? ==> h.value.ray == ray && h.value.obj in objs && 0.0 <= h.value.dist
    ensures h.Some? ==> Hits(sqrt, h.value.obj, ray).Some? && h.value.dist in Hits(sqrt, h.value.obj, ray).value
  {
    var rs := Collected(sqrt, objs, ray);
    if !Selectable(rs) then None
    else
      var p := Nearest(rs);
      var winner := rs[p.res];
      assert Hits(sqrt, winner.obj, ray) == Some(winner.dists) && winner.obj in objs;
      assert Dist(rs, p) in winner.dists;
      Some(Hit(ray, winner.obj, Dist(rs, p)))
  }

  /** The hit a ray reports is no farther than any distance of any object it crosses. */
  lemma CastIsClosest(sqrt: real -> real, objs: seq<Primitive>, ray: Ray)
    requires SceneObjects(sqrt, objs)
    ensures var h := Cast(sqrt, objs, ray);
      h.Some? ==> forall o, t :: o in objs && Hits(sqrt, o, ray).Some? && t in Hits(sqrt, o, ray).value ==>
        h.value.dist <= t
  {
    var rs := Collected(sqrt, objs, ray);
    if Selectable(rs) {
      var p := Nearest(rs);
      CollectedComplete(sqrt, objs, ray);
      forall o, t | o in objs && Hits(sqrt, o, ray).Some? && t in Hits(sqrt, o, ray).value
        ensures Dist(rs, p) <= t
      {
        var k :| 0 <= k < |rs| && rs[k] == Found(o, Hits(sqrt, o, ray).value);
        var i :| 0 <= i < |rs[k].dists| && rs[k].dists[i] == t;
        assert ValidPos(rs, Pos(k, i)) && Dist(rs, Pos(k, i)) == t;
      }
    }
  }

  /** When the scan has something to select, the cast hit is the `Nearest` candidate. */
  lemma CastIsNearest(sqrt: real -> real, objs: seq<Primitive>, ray: Ray)
    requires SceneObjects(sqrt, objs) && Selectable(Collected(sqrt, objs, ray))
    ensures var rs := Collected(sqrt, objs, ray); var p := Nearest(rs);
      Cast(sqrt, objs, ray) == Some(Hit(ray, rs[p.res].obj, Dist(rs, p)))
  {
  }

  /**
   * The quirk of the selection: when the last primitive is a sphere lying wholly behind the
   * ray's origin, its result is collected with no distance, and the ray reports no hit even
   * though a plane in front of it is crossed.
   */
  lemma SphereBehindHidesPlane(sqrt: real -> real, m: Material)
    requires IsSqrt(sqrt)
    ensures var ray := Ray([0.0, 0.0, 0.0], [0.0, 0.0, 1.0]);
      var plane := Plane([0.0, 0.0, 1.0], 5.0, m);
      var sphere := Sphere([0.0, 0.0, -10.0], 1.0, m);
      PlaneHits(plane.normal, plane.d, ray) == Some([5.0])
      && Cast(sqrt, [plane, sphere], ray) == None
  {
    var ray := Ray([0.0, 0.0, 0.0], [0.0, 0.0, 1.0]);
    var plane := Plane([0.0, 0.0, 1.0], 5.0, m);
    var sphere := Sphere([0.0, 0.0, -10.0], 1.0, m);
    Dot3(ray.direction, plane.normal);
    Dot3(ray.origin, plane.normal);
    var toCenter := ToCenter(sphere.center, ray);
    assert toCenter == [0.0, 0.0, -10.0];
    Dot3(toCenter, ray.direction);
    Dot3(toCenter, toCenter);
    assert ProjDist(sphere.center, ray) == -10.0;
    assert ClosestDistSq(sphere.center, ray) == 0.0;
    var f := HalfChord(sqrt, sphere.center, sphere.radius, ray);
    assert f * f == 1.0;
    SquareRoots(f, 1.0);
    assert StartsOutside(sphere.center, sphere.radius, ray);
    assert SphereHits(sqrt, sphere.center, sphere.radius, ray) == Some([]);
    assert Hits(sqrt, plane, ray) == Some([5.0]);
    assert Hits(sqrt, sphere, ray) == Some([]);
    var objs := [plane, sphere];
    assert objs[..1] == [plane] && [plane][..0] == [];
    assert Collected(sqrt, [plane], ray) == [Found(plane, [5.0])];
    var rs := Collected(sqrt, objs, ray);
    assert rs == [Found(plane, [5.0]), Found(sphere, [])];
  }

  // ---------------------------------------------------------------------------
  // Shadow rays
  // ---------------------------------------------------------------------------

  /** `obj` shadows a point whose light is `lightDist2` away (squared): one of its distances is not farther. */
  predicate Blocks(sqrt: real -> real, obj: Primitive, ray: Ray, lightDist2: real)
    requires IsSqrt(sqrt) && WellFormed(obj)
    ensures Blocks(sqrt, obj, ray, lightDist2) ==>
      Hits(sqrt, obj, ray).Some? && exists t :: t in Hits(sqrt, obj, ray).value && 0.0 <= t && WithinLight(t, lightDist2)
  {
    var h := Hits(sqrt, obj, ray);
    h.Some? && exists t :: t in h.value && WithinLight(t, lightDist2)
  }

  /** The test of `rayCast` for one distance: its square is not beyond the light's. */
  predicate WithinLight(t: real, lightDist2: real)
  {
    t * t <= lightDist2
  }

  /**
   * The object a shadow `rayCast` returns the result of, scanning from index `i`: the first
   * blocking one, or none at all when no object blocks.
   */
  function FirstBlocker(sqrt: real -> real, objs: seq<Primitive>, ray: Ray, lightDist2: real, i: nat): (b: Option<nat>)
    requires SceneObjects(sqrt, objs) && i <= |objs|
    ensures b.Some? ==> i <= b.value < |objs| && Blocks(sqrt, objs[b.value], ray, lightDist2)
    ensures b.Some? ==> forall k :: i <= k < b.value ==> !Blocks(sqrt, objs[k], ray, lightDist2)
    ensures b.None? <==> forall k :: i <= k < |objs| ==> !Blocks(sqrt, objs[k], ray, lightDist2)
    decreases |objs| - i
  {
    if i == |objs| then None
    else if Blocks(sqrt, objs[i], ray, lightDist2) then Some(i)
    else
      var b := FirstBlocker(sqrt, objs, ray, lightDist2, i + 1);
      // The object at `i` is the one the recursive call does not look at.
      assert forall k :: i <= k < |objs| && (b.None? || k < b.value) ==> !Blocks(sqrt, objs[k], ray, lightDist2) by {
        forall k | i <= k < |objs| && (b.None? || k < b.value)
          ensures !Blocks(sqrt, objs[k], ray, lightDist2)
        {
          if k == i { }
        }
      }
      b
  }

  /** The first blocker is the object at `i` when it blocks and none before it does. */
  lemma FirstBlockerAt(sqrt: real -> real, objs: seq<Primitive>, ray: Ray, lightDist2: real, i: nat)
    requires SceneObjects(sqrt, objs) && i < |objs|
    requires forall k :: 0 <= k < i ==> !Blocks(sqrt, objs[k], ray, lightDist2)
    requires Blocks(sqrt, objs[i], ray, lightDist2)
    ensures FirstBlocker(sqrt, objs, ray, lightDist2, 0) == Some(i)
  {
    var b := FirstBlocker(sqrt, objs, ray, lightDist2, 0);
    assert b.Some?;
    assert b.value <= i;
  }

  /** A shadow ray is blocked exactly when some object has a distance within the light's. */
  predicate Shadowed(sqrt: real -> real, objs: seq<Primitive>, ray: Ray, lightDist2: real)
    requires SceneObjects(sqrt, objs)
    ensures Shadowed(sqrt, objs, ray, lightDist2) <==>
      exists k :: 0 <= k < |objs| && Blocks(sqrt, objs[k], ray, lightDist2)
  {
    FirstBlocker(sqrt, objs, ray, lightDist2, 0).Some?
  }

  /** Moving the light farther away can only add blockers. */
  lemma ShadowedMonotone(sqrt: real -> real, objs: seq<Primitive>, ray: Ray, near2: real, far2: real)
    requires SceneObjects(sqrt, objs) && near2 <= far2
    ensures Shadowed(sqrt, objs, ray, near2) ==> Shadowed(sqrt, objs, ray, far2)
  {
    if Shadowed(sqrt, objs, ray, near2) {
      var b := FirstBlocker(sqrt, objs, ray, near2, 0).value;
      assert Blocks(sqrt, objs[b], ray, far2);
    }
  }
}

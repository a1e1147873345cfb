/**
 * The `Raytracer` class of raytracer.py: a camera with its virtual view plane, a camera
 * tween driven by a frame counter, the ray cast with nearest-hit selection or shadow
 * short-circuit, local and recursive shading, and the rendering of one line of pixels
 * into the surface, here a two-dimensional array of colour tuples.
 */
module Engine {
  import opened Wrappers
  import opened RealMath
  import opened Math3D
  import opened Rays
  import opened Primitives
  import opened HitResults
  import opened Lights
  import opened Visibility
  import opened Shading

  /** The default scene ambient colour and background colour of the constructor. */
  const DefaultSceneAmbient: Vec3 := [1.0, 1.0, 1.0]
  const DefaultBGColor: Rgb := Rgb(50, 50, 50)

  /** The camera's right, up and forward directions. */
  datatype Basis = Basis(x: Vec3, y: Vec3, z: Vec3)

  /** The basis `setCamera` derives: forward toward the centre of interest, right as `up x forward`, up as `forward x right`, each normalized. */
  function CameraBasis(sqrt: real -> real, pos: Vec3, coi: Vec3, up: Vec3): (b: Basis)
    requires IsSqrt(sqrt)
    ensures Dot(b.x, b.x) == 1.0 || AllZero(b.x)
    ensures Dot(b.y, b.y) == 1.0 || AllZero(b.y)
    ensures Dot(b.z, b.z) == 1.0 || AllZero(b.z)
  {
    var z := Normalized(sqrt, Minus(coi, pos));
    UnitOrZero(sqrt, Minus(coi, pos));
    var x := Normalized(sqrt, Cross3(up, z));
    UnitOrZero(sqrt, Cross3(up, z));
    UnitOrZero(sqrt, Cross3(z, x));
    Basis(x, Normalized(sqrt, Cross3(z, x)), z)
  }

  /** A normalized vector has unit length, or is zero. */
  lemma UnitOrZero(sqrt: real -> real, a: Vec)
    requires IsSqrt(sqrt)
    ensures Dot(Normalized(sqrt, a), Normalized(sqrt, a)) == 1.0 || AllZero(Normalized(sqrt, a))
  {
    if !AllZero(a) {
      NormalizedUnit(sqrt, a);
    }
  }

  /**
   * The three directions of the camera basis are pairwise orthogonal whatever the arguments,
   * and forward has unit length unless the camera sits on its centre of interest.
   */
  lemma BasisOrthogonal(sqrt: real -> real, pos: Vec3, coi: Vec3, up: Vec3)
    requires IsSqrt(sqrt)
    ensures var b := CameraBasis(sqrt, pos, coi, up);
      Dot(b.x, b.z) == 0.0 && Dot(b.y, b.z) == 0.0 && Dot(b.y, b.x) == 0.0
    ensures !AllZero(Minus(coi, pos)) ==> var z := CameraBasis(sqrt, pos, coi, up).z; Dot(z, z) == 1.0
  {
    var z := Normalized(sqrt, Minus(coi, pos));
    var right := Cross3(up, z);
    var x := Normalized(sqrt, right);
    var upward := Cross3(z, x);
    CrossOrthogonal(up, z);
    DotSymmetric(z, right);
    NormalizedOrthogonal(sqrt, right, z);
    CrossOrthogonal(z, x);
    DotSymmetric(z, upward);
    DotSymmetric(x, upward);
    NormalizedOrthogonal(sqrt, upward, z);
    NormalizedOrthogonal(sqrt, upward, x);
    if !AllZero(Minus(coi, pos)) {
      NormalizedUnit(sqrt, Minus(coi, pos));
    }
  }

  /** The virtual view plane: its top-left corner, its size and the size of one pixel on it. */
  datatype View = View(origin: Vec3, height: real, halfHeight: real, width: real, halfWidth: real,
                       widthRatio: real, heightRatio: real)

  /**
   * The view plane `setCamera` derives: `near` ahead of the camera, as high as the vertical
   * field of view allows, as wide as the surface's aspect ratio makes it, with its origin
   * at the top-left corner.
   */
  function ViewPlane(tanDegrees: real -> real, pos: Vec3, fov: real, near: real, b: Basis,
                     aspect: real, pyWidth: int, pyHeight: int): (v: View)
    requires pyWidth > 0 && pyHeight > 0
    ensures v.height == 2.0 * v.halfHeight && v.halfWidth == v.halfHeight * aspect && v.width == 2.0 * v.halfWidth
    ensures v.widthRatio * pyWidth as real == v.width && v.heightRatio * pyHeight as real == v.height
  {
    var halfHeight := tanDegrees(fov / 2.0) * near;
    var height := halfHeight * 2.0;
    var halfWidth := halfHeight * aspect;
    var width := halfWidth * 2.0;
    var origin := Minus(Plus(Plus(pos, Times(b.z, near)), Times(b.y, halfHeight)), Times(b.x, halfWidth));
    View(origin, height, halfHeight, width, halfWidth, width / pyWidth as real, height / pyHeight as real)
  }

  /** The five camera values a tween moves (`mCamPos`, `mCamCOI`, `mCamUp`, `mCamFOV`, `mCamNear`), or the five offsets it moves them by. */
  datatype CameraValues = CameraValues(pos: Vec3, coi: Vec3, up: Vec3, fov: real, near: real)

  /** One frame of `updateTween`: every value moves by its offset times the eased parameter `e`. */
  function Stepped(c: CameraValues, offset: CameraValues, e: real): (r: CameraValues)
    ensures Minus(r.pos, c.pos) == Times(offset.pos, e) && Minus(r.coi, c.coi) == Times(offset.coi, e)
    ensures Minus(r.up, c.up) == Times(offset.up, e)
    ensures r.fov - c.fov == offset.fov * e && r.near - c.near == offset.near * e
  {
    CameraValues(Plus(c.pos, Times(offset.pos, e)), Plus(c.coi, Times(offset.coi, e)),
                 Plus(c.up, Times(offset.up, e)), c.fov + offset.fov * e, c.near + offset.near * e)
  }

  /** The offsets from `c` to `dest`, as `setCameraTweenDest` records them when every destination is given. */
  function Offsets(dest: CameraValues, c: CameraValues): (r: CameraValues)
    ensures Plus(c.pos, r.pos) == dest.pos && Plus(c.coi, r.coi) == dest.coi && Plus(c.up, r.up) == dest.up
    ensures c.fov + r.fov == dest.fov && c.near + r.near == dest.near
  {
    CameraValues(Minus(dest.pos, c.pos), Minus(dest.coi, c.coi), Minus(dest.up, c.up),
                 dest.fov - c.fov, dest.near - c.near)
  }

  /** A step by the whole offset lands on the destination. */
  lemma StepReaches(c: CameraValues, dest: CameraValues)
    ensures Stepped(c, Offsets(dest, c), 1.0) == dest
  {
    var s := Stepped(c, Offsets(dest, c), 1.0);
    assert s.pos == dest.pos && s.coi == dest.coi && s.up == dest.up;
  }

  /** A step whose eased parameter is 0 leaves every value where it was. */
  lemma StepZero(c: CameraValues, offset: CameraValues)
    ensures Stepped(c, offset, 0.0) == c
  {
    var s := Stepped(c, offset, 0.0);
    assert s.pos == c.pos && s.coi == c.coi && s.up == c.up;
  }

  /** Two frames by the same offsets add up their eased parameters. */
  lemma StepsCompose(c: CameraValues, offset: CameraValues, e1: real, e2: real)
    ensures Stepped(Stepped(c, offset, e1), offset, e2) == Stepped(c, offset, e1 + e2)
  {
    var lhs, rhs := Stepped(Stepped(c, offset, e1), offset, e2), Stepped(c, offset, e1 + e2);
    assert lhs.pos == rhs.pos && lhs.coi == rhs.coi && lhs.up == rhs.up;
  }

  /** `3 t^2 - 2 t^3`, the tween's default easing. */
  function Ease(t: real): (e: real)
    ensures t == 0.0 ==> e == 0.0
    ensures t == 1.0 ==> e == 1.0
    ensures 0.0 <= t <= 1.0 ==> 0.0 <= e <= 1.0
    ensures 0.0 < t < 1.0 ==> 0.0 < e < 1.0
  {
    var e := 3.0 * t * t - 2.0 * t * t * t;
    if 0.0 < t < 1.0 then
      // e = t (t (3 - 2t)) and 1 - e = (1 - t) ((1 - t)(1 + 2t)), all factors positive.
      var rise := 3.0 - 2.0 * t;
      ProductPositive(t, rise);
      ProductPositive(t, t * rise);
      assert e == t * (t * rise);
      var rest, fall := 1.0 - t, 1.0 + 2.0 * t;
      ProductPositive(rest, fall);
      ProductPositive(rest, rest * fall);
      assert 1.0 - e == rest * (rest * fall);
      e
    else e
  }

  /** The `mTValues` of `setCameraTweenDest(n)`: `k / n` for `k` from 1 to `n`; none when `n <= 0`. */
  function TValues(n: int): (ts: seq<real>)
    ensures |ts| == if n > 0 then n else 0
    ensures forall k :: 0 <= k < |ts| ==> ts[k] * n as real == (k + 1) as real
  {
    if n <= 0 then [] else seq(n, k requires 0 <= k < n => (k + 1) as real / n as real)
  }

  /** For `n > 0` frames the parameters increase strictly from `1/n` to exactly 1. */
  lemma TValuesShape(n: int)
    ensures |TValues(n)| == if n > 0 then n else 0
    ensures n > 0 ==> TValues(n)[n - 1] == 1.0
    ensures forall k :: 0 <= k < |TValues(n)| ==> 0.0 < TValues(n)[k] <= 1.0
    ensures forall j, k :: 0 <= j < k < |TValues(n)| ==> TValues(n)[j] < TValues(n)[k]
  {
    if n > 0 {
      var ts, d := TValues(n), n as real;
      Fraction(d, d, d);
      assert ts[n - 1] == d / d;
      forall k | 0 <= k < n
        ensures 0.0 < ts[k] <= 1.0
      {
        Fraction((k + 1) as real, d, (k + 1) as real);
      }
      forall j, k | 0 <= j < k < n
        ensures ts[j] < ts[k]
      {
        Fraction((j + 1) as real, d, (k + 1) as real);
      }
    }
  }

  /** Dividing by a positive `d` keeps order, and `a / d` is positive, at most 1 for `a <= d`, and 1 for `a == d`. */
  lemma Fraction(a: real, d: real, b: real)
    requires 0.0 < a && 0.0 < d
    ensures a < b ==> a / d < b / d
    ensures a <= d ==> 0.0 < a / d <= 1.0
    ensures d / d == 1.0
  {
  }

  lemma ProductPositive(x: real, y: real)
    requires 0.0 < x && 0.0 < y
    ensures 0.0 < x * y
  {
  }

  /** The sum of the easing over the parameters of a tween, in order. */
  function EaseTotal(ts: seq<real>): real
  {
    if ts == [] then 0.0 else EaseTotal(ts[..|ts| - 1]) + Ease(ts[|ts| - 1])
  }

  /** Over parameters in [0, 1] the total is at least the first frame's easing. */
  lemma {:induction false} EaseTotalAtLeastFirst(ts: seq<real>)
    requires forall k :: 0 <= k < |ts| ==> 0.0 <= ts[k] <= 1.0
    ensures 0.0 <= EaseTotal(ts)
    ensures ts != [] ==> Ease(ts[0]) <= EaseTotal(ts)
  {
    if ts != [] {
      var prefix := ts[..|ts| - 1];
      EaseTotalAtLeastFirst(prefix);
      if prefix == [] {
        assert ts == [ts[0]];
      } else {
        assert prefix[0] == ts[0];
      }
    }
  }

  /**
   * Each frame of `updateTween` adds `delta * ease(t)` to the value it started the frame
   * with, so after all `n >= 2` frames the camera has moved by `delta` times a total
   * greater than 1: it passes the destination instead of stopping on it.
   */
  lemma TweenOvershoots(n: int)
    requires n >= 2
    ensures EaseTotal(TValues(n)) > 1.0
  {
    var ts := TValues(n);
    TValuesShape(n);
    var prefix := ts[..n - 1];
    assert forall k :: 0 <= k < |prefix| ==> prefix[k] == ts[k];
    EaseTotalAtLeastFirst(prefix);
    assert ts[0] < ts[n - 1];
  }

  /** The camera values after one `updateTween` frame, under the default easing, per parameter of `ts` in order. */
  function Tweened(c: CameraValues, offset: CameraValues, ts: seq<real>): CameraValues
  {
    if ts == [] then c else Stepped(Tweened(c, offset, ts[..|ts| - 1]), offset, Ease(ts[|ts| - 1]))
  }

  /** A run of frames moves the camera once, by the offsets times the sum of the eased parameters. */
  lemma {:induction false} TweenedIsOneStep(c: CameraValues, offset: CameraValues, ts: seq<real>)
    ensures Tweened(c, offset, ts) == Stepped(c, offset, EaseTotal(ts))
  {
    if ts == [] {
      StepZero(c, offset);
    } else {
      var prefix := ts[..|ts| - 1];
      TweenedIsOneStep(c, offset, prefix);
      StepsCompose(c, offset, EaseTotal(prefix), Ease(ts[|ts| - 1]));
    }
  }

  /**
   * A complete tween of `n >= 2` frames toward a larger field of view, from a camera whose
   * offsets were all recorded, ends past the destination rather than on it: the frames add
   * the eased parameters instead of setting them.
   */
  lemma TweenPassesDestination(c: CameraValues, dest: CameraValues, n: int)
    requires n >= 2 && c.fov < dest.fov
    ensures Tweened(c, Offsets(dest, c), TValues(n)).fov > dest.fov
  {
    var total := EaseTotal(TValues(n));
    TweenedIsOneStep(c, Offsets(dest, c), TValues(n));
    TweenOvershoots(n);
    ProductPositive(dest.fov - c.fov, total - 1.0);
  }

  /** The hit a result stands for: its ray, its primitive and its first distance. */
  function HitOf(r: RayHitResult): Hit
    reads r
    requires |r.dists| > 0
  {
    Hit(r.ray, r.obj, r.dists[0])
  }

  /** The value returned together with the field's final value, as `Shade` gives them. */
  function Outcome(r: Option<Shaded>, final: Vec3): Option<(Shaded, Vec3)>
  {
    if r.None? then None else Some((r.value, final))
  }

  /** What rendering reads of a `Raytracer`: the scene, the camera position, the camera axes and the view plane. */
  datatype Shot = Shot(scene: Scene, camPos: Vec3, axes: Basis, view: View)

  /** The view-plane point of surface position (ix, iy): right by `ix` pixels and down by `iy` from the origin. */
  function PixelPos(view: View, axes: Basis, ix: real, iy: real): (p: Vec3)
    ensures ix == 0.0 && iy == 0.0 ==> p == view.origin
  {
    var p := Minus(Plus(view.origin, Times(axes.x, view.widthRatio * ix)), Times(axes.y, view.heightRatio * iy));
    assert ix == 0.0 && iy == 0.0 ==> forall i :: 0 <= i < 3 ==> p[i] == view.origin[i];
    p
  }

  /** The ray `renderOneLine` casts through surface position (x, y): from the camera toward that point of the view plane. */
  function PixelRay(s: Shot, x: int, y: int): Ray
    requires IsSqrt(s.scene.sqrt)
  {
    NewRay(s.scene.sqrt, s.camPos, Minus(PixelPos(s.view, s.axes, x as real, y as real), s.camPos), false)
  }

  /**
   * What `renderOneLine` writes at (x, y): the top-level colour of the nearest hit of the
   * pixel's ray, or `None` when the recursion limit comes first.
   */
  ghost function PixelAt(s: Shot, x: int, y: int, fuel: nat): Option<Rgb>
    requires SceneOk(s.scene)
  {
    TopColour(Shade(s.scene, Cast(s.scene.sqrt, s.scene.objects, PixelRay(s, x, y)), TopDepth, fuel, Zero(3)))
  }

  /** The colours `renderOneLine` computes for row `y`, left to right, over the first `n` columns. */
  ghost function Row(s: Shot, y: int, fuel: nat, n: nat): seq<Option<Rgb>>
    requires SceneOk(s.scene)
  {
    seq(n, x => PixelAt(s, x, y, fuel))
  }

  /** How many leading pixels of a row have a colour: where `renderOneLine` stops. */
  function Reach(row: seq<Option<Rgb>>): (n: nat)
    ensures n <= |row|
    ensures forall k :: 0 <= k < n ==> row[k].Some?
    ensures n < |row| ==> row[n].None?
  {
    if row == [] || row[0].None? then 0 else 1 + Reach(row[1..])
  }

  /** `set_at((x, y), c)` on a surface: a position outside it is ignored. */
  method SetAt(surface: array2<Rgb>, x: int, y: int, c: Rgb)
    modifies surface
    ensures forall i, j :: 0 <= i < surface.Length0 && 0 <= j < surface.Length1 ==>
      surface[i, j] == if i == x && j == y then c else old(surface[i, j])
  {
    if 0 <= x < surface.Length0 && 0 <= y < surface.Length1 {
      surface[x, y] := c;
    }
  }

  /** The tuple a top-level `getColorOfHitRecursive` returns, or `None` when there is none. */
  function TopColour(s: Option<(Shaded, Vec3)>): Option<Rgb>
  {
    if s.Some? && s.value.0.Pixel? then Some(s.value.0.rgb) else None
  }

  /** `HitOf` of a result that may be `None`. */
  function HitOpt(r: RayHitResult?): Option<Hit>
    reads r
    requires r != null ==> |r.dists| > 0
  {
    if r == null then None else Some(HitOf(r))
  }

  /** The collected results hold, in order, the primitives and distances of `rs`, each a valid result of `ray`. */
  ghost predicate Mirrors(results: seq<RayHitResult>, rs: seq<Found>, ray: Ray)
    reads results
  {
    |results| == |rs|
    && forall j :: 0 <= j < |results| ==>
         results[j].Valid() && results[j].ray == ray && results[j].obj == rs[j].obj && results[j].dists == rs[j].dists
  }

  /** One more result appended on both sides keeps the two lists in step. */
  lemma MirrorsExtend(results: seq<RayHitResult>, rs: seq<Found>, ray: Ray, r: RayHitResult, f: Found)
    requires Mirrors(results, rs, ray)
    requires r.Valid() && r.ray == ray && r.obj == f.obj && r.dists == f.dists
    ensures Mirrors(results + [r], rs + [f], ray)
  {
  }

  /** One pass of the collecting loop of `rayCast`: object `i`'s `rayHit` result is appended when there is one. */
  method CollectOne(sqrt: real -> real, objs: seq<Primitive>, i: nat, ray: Ray, results: seq<RayHitResult>)
    returns (next: seq<RayHitResult>)
    requires IsSqrt(sqrt) && SceneObjects(sqrt, objs) && i < |objs|
    requires Mirrors(results, Collected(sqrt, objs[..i], ray), ray)
    ensures Mirrors(next, Collected(sqrt, objs[..i + 1], ray), ray)
    ensures next == results || (|next| == |results| + 1 && next[..|results|] == results && fresh(next[|results|]))
  {
    var result := RayHit(sqrt, objs[i], ray);
    CollectedStep(sqrt, objs, i, ray);
    if result == null {
      next := results;
    } else {
      MirrorsExtend(results, Collected(sqrt, objs[..i], ray), ray, result, Found(objs[i], result.dists));
      next := results + [result];
      assert next[..|results|] == results;
    }
  }

  /** The loop of `rayCast` over the objects in shadow mode: the first result holding a distance within the light's, or `null`. */
  method FirstBlockingResult(sqrt: real -> real, objs: seq<Primitive>, ray: Ray, lightDist2: real) returns (blocker: RayHitResult?)
    requires IsSqrt(sqrt) && SceneObjects(sqrt, objs)
    ensures var b := FirstBlocker(sqrt, objs, ray, lightDist2, 0);
      (blocker == null <==> b.None?)
      && (blocker != null ==> fresh(blocker) && Records(blocker, ray, objs[b.value], Hits(sqrt, objs[b.value], ray).value))
  {
    for i := 0 to |objs|
      invariant forall k :: 0 <= k < i ==> !Blocks(sqrt, objs[k], ray, lightDist2)
    {
      var result := RayHit(sqrt, objs[i], ray);
      if result != null {
        var blocks := AnyWithinLight(result.dists, lightDist2);
        if blocks {
          FirstBlockerAt(sqrt, objs, ray, lightDist2, i);
          return result;
        }
      }
      assert !Blocks(sqrt, objs[i], ray, lightDist2);
      forall k | 0 <= k < i + 1 ensures !Blocks(sqrt, objs[k], ray, lightDist2) {
        if k == i {
        }
      }
    }
    blocker := null;
  }

  /** The loop of `rayCast` over the objects outside shadow mode: every object's result, in order. */
  method AllResults(sqrt: real -> real, objs: seq<Primitive>, ray: Ray) returns (resultList: seq<RayHitResult>)
    requires IsSqrt(sqrt) && SceneObjects(sqrt, objs)
    ensures Mirrors(resultList, Collected(sqrt, objs, ray), ray)
    ensures forall j :: 0 <= j < |resultList| ==> fresh(resultList[j])
  {
    resultList := [];
    for i := 0 to |objs|
      invariant Mirrors(resultList, Collected(sqrt, objs[..i], ray), ray)
      invariant forall j :: 0 <= j < |resultList| ==> fresh(resultList[j])
    {
      var next := CollectOne(sqrt, objs, i, ray, resultList);
      if next != resultList {
        forall j | 0 <= j < |next| ensures fresh(next[j]) {
          if j < |resultList| {
            assert next[j] == next[..|resultList|][j];
          } else {
            assert j == |resultList|;
          }
        }
      }
      resultList := next;
    }
    assert objs[..|objs|] == objs;
  }

  /** The shadow test of `rayCast` on one result: does some distance lie within the light's? */
  method AnyWithinLight(dists: seq<real>, lightDist2: real) returns (found: bool)
    ensures found <==> exists t :: t in dists && WithinLight(t, lightDist2)
  {
    for k := 0 to |dists|
      invariant forall m :: 0 <= m < k ==> !WithinLight(dists[m], lightDist2)
    {
      if dists[k] * dists[k] <= lightDist2 {
        assert WithinLight(dists[k], lightDist2);
        return true;
      }
    }
    return false;
  }

  /**
   * The selection loop of `rayCast`: starting from the first distance of the last result,
   * every distance of every result, in order, replaces the incumbent when strictly smaller.
   * The winner is `Nearest` of the collected values.
   */
  method SelectNearest(results: seq<RayHitResult>, ghost rs: seq<Found>, ghost ray: Ray)
    returns (cur: RayHitResult, distIndex: nat)
    requires Mirrors(results, rs, ray) && Selectable(rs)
    ensures cur == results[Nearest(rs).res] && distIndex == Nearest(rs).idx
  {
    cur := results[|results| - 1];
    distIndex := 0;
    ghost var best := Incumbent(rs);
    for j := 0 to |results|
      invariant ValidPos(rs, best) && cur == results[best.res] && distIndex == best.idx
      invariant Scan(rs, j, 0, best) == Nearest(rs)
    {
      var result := results[j];
      for i := 0 to |result.dists|
        invariant ValidPos(rs, best) && cur == results[best.res] && distIndex == best.idx
        invariant Scan(rs, j, i, best) == Nearest(rs)
      {
        if result.dists[i] < cur.dists[distIndex] {
          distIndex := i;
          cur := result;
          best := Pos(j, i);
        }
      }
    }
  }

  /** The state of one `Raytracer`. */
  class Raytracer {
    /** `math.sqrt`, and `math.tan(math.radians(x))` as one function of `x`. */
    const sqrt: real -> real
    const tanDegrees: real -> real

    /** The render surface and its size, read once by the constructor. */
    const surface: array2<Rgb>
    const pyWidth: int
    const pyHeight: int
    const aspectRatio: real

    var objects: seq<Primitive>
    var lights: seq<Light>
    var bgColor: Rgb
    var sceneAmbient: Vec3

    /** `mCamPos`, `mCamCOI`, `mCamUp`, `mCamFOV` and `mCamNear`. */
    var camera: CameraValues
    /** `mCamX`, `mCamY` and `mCamZ`. */
    var axes: Basis
    /** `mViewOrigin`, the view sizes and the two pixel ratios. */
    var view: View

    var finalLight: Vec3

    var isTweening: bool
    var tValues: seq<real>
    var curTweenFrame: nat
    var numTweenFrames: int
    /** `mTweenCamPos`, `mTweenCamCOI`, `mTweenCamUp`, `mTweenCamFOV` and `mTweenCamNear`. */
    var tweenOffsets: CameraValues

    /** What casting rays and shading need: a square root and well-formed primitives. */
    ghost predicate Ready()
      reads this`objects
    {
      IsSqrt(sqrt) && SceneObjects(sqrt, objects)
    }

    /** A hit result with a first distance, on one of the scene's primitives. */
    ghost predicate OfScene(hitData: RayHitResult)
      reads this`objects, hitData
    {
      hitData.Valid() && |hitData.dists| > 0 && hitData.obj in objects
    }

    /** The surface matches the recorded size, and every primitive is well formed. */
    ghost predicate Valid()
      reads this`objects
    {
      Ready() && pyWidth > 0 && pyHeight > 0
      && surface.Length0 == pyWidth && surface.Length1 == pyHeight
      && aspectRatio == pyWidth as real / pyHeight as real
    }

    /**
     * `Raytracer(renderSurface, sceneAmbient, bgColor)`: no objects or lights, the camera at
     * the origin looking down +Z, a view plane the size of the surface, and a tween that is
     * already marked running although it has no frames.
     */
    constructor (sqrt: real -> real, tanDegrees: real -> real, renderSurface: array2<Rgb>,
                 sceneAmbient: Vec3, bgColor: Rgb)
      requires IsSqrt(sqrt) && renderSurface.Length0 > 0 && renderSurface.Length1 > 0
      ensures Valid()
      ensures this.surface == renderSurface && objects == [] && lights == []
      ensures this.sceneAmbient == sceneAmbient && this.bgColor == bgColor
      ensures camera == CameraValues(Zero(3), Zero(3), [0.0, 1.0, 0.0], 45.0, 1.0)
      ensures axes == Basis([1.0, 0.0, 0.0], [0.0, 1.0, 0.0], [0.0, 0.0, 1.0])
      ensures view.origin == Zero(3) && view.height == pyHeight as real && view.width == pyWidth as real
      ensures view.halfHeight * 2.0 == view.height && view.halfWidth * 2.0 == view.width
      ensures view.widthRatio == 1.0 && view.heightRatio == 1.0
      ensures finalLight == Zero(3)
      ensures isTweening && tValues == [] && curTweenFrame == 0 && numTweenFrames == 0
      ensures tweenOffsets == CameraValues(Zero(3), Zero(3), Zero(3), 0.0, 0.0)
    {
      this.sqrt := sqrt;
      this.tanDegrees := tanDegrees;
      surface := renderSurface;
      objects := [];
      lights := [];
      this.bgColor := bgColor;
      this.sceneAmbient := sceneAmbient;
      var w, h := renderSurface.Length0, renderSurface.Length1;
      pyWidth, pyHeight := w, h;
      aspectRatio := w as real / h as real;
      camera := CameraValues(Zero(3), Zero(3), [0.0, 1.0, 0.0], 45.0, 1.0);
      axes := Basis([1.0, 0.0, 0.0], [0.0, 1.0, 0.0], [0.0, 0.0, 1.0]);
      var widthRatio, heightRatio := w as real / w as real, h as real / h as real;
      Fraction(w as real, w as real, w as real);
      Fraction(h as real, h as real, h as real);
      view := View(Zero(3), h as real, h as real / 2.0, w as real, w as real / 2.0, widthRatio, heightRatio);
      finalLight := Zero(3);
      isTweening := true;
      tValues := [];
      curTweenFrame := 0;
      numTweenFrames := 0;
      tweenOffsets := CameraValues(Zero(3), Zero(3), Zero(3), 0.0, 0.0);
    }

    /** What shading reads of the ray tracer. */
    function SceneOf(): Scene
      reads this`objects, this`lights, this`sceneAmbient, this`bgColor
    {
      Scene(sqrt, objects, lights, sceneAmbient, bgColor)
    }

    /** The view plane is the one `setCamera` derives from the camera values and axes. */
    ghost predicate CameraSet()
      reads this`camera, this`axes, this`view
    {
      pyWidth > 0 && pyHeight > 0
      && view == ViewPlane(tanDegrees, camera.pos, camera.fov, camera.near, axes, aspectRatio, pyWidth, pyHeight)
    }

    /**
     * `setCamera(camPos, camCOI, camUp, camFOV, camNear)`: records the camera, derives its
     * axes and the view plane. The up vector itself is not stored.
     */
    method SetCamera(pos: Vec3, coi: Vec3, up: Vec3, fov: real, near: real)
      requires IsSqrt(sqrt) && pyWidth > 0 && pyHeight > 0
      modifies this`camera, this`axes, this`view
      ensures camera == old(camera).(pos := pos, coi := coi, fov := fov, near := near)
      ensures axes == CameraBasis(sqrt, pos, coi, up)
      ensures CameraSet()
    {
      camera := camera.(pos := pos, coi := coi, fov := fov, near := near);
      axes := CameraBasis(sqrt, pos, coi, up);
      view := ViewPlane(tanDegrees, pos, fov, near, axes, aspectRatio, pyWidth, pyHeight);
    }

    /** `calculatePixelPos(ix, iy)`: the view-plane point of a surface position; the origin for (0, 0). */
    function CalculatePixelPos(ix: real, iy: real): (p: Vec3)
      reads this`view, this`axes
      ensures ix == 0.0 && iy == 0.0 ==> p == view.origin
    {
      PixelPos(view, axes, ix, iy)
    }

    /**
     * `setCameraTweenDest(numFrames, camPos, camCOI, camUP, camFOV, camNear)`: marks the
     * tween running with `numFrames` parameters and records the offset to every destination
     * that was given and is truthy (a vector always, a number when it is not 0). The frame
     * counter is left where it was.
     */
    method SetCameraTweenDest(numFrames: int, pos: Option<Vec3>, coi: Option<Vec3>, up: Option<Vec3>,
                              fov: Option<real>, near: Option<real>)
      modifies this`isTweening, this`tValues, this`numTweenFrames, this`tweenOffsets
      ensures isTweening && tValues == TValues(numFrames) && numTweenFrames == numFrames
      ensures tweenOffsets.pos == if pos.Some? then Minus(pos.value, camera.pos) else old(tweenOffsets.pos)
      ensures tweenOffsets.coi == if coi.Some? then Minus(coi.value, camera.coi) else old(tweenOffsets.coi)
      ensures tweenOffsets.up == if up.Some? then Minus(up.value, camera.up) else old(tweenOffsets.up)
      ensures tweenOffsets.fov == if fov.Some? && fov.value != 0.0 then fov.value - camera.fov else old(tweenOffsets.fov)
      ensures tweenOffsets.near == if near.Some? && near.value != 0.0 then near.value - camera.near else old(tweenOffsets.near)
    {
      isTweening := true;
      var ts := [];
      var i := 1;
      while i <= numFrames
        invariant 1 <= i <= if numFrames > 0 then numFrames + 1 else 1
        invariant ts == TValues(numFrames)[..i - 1]
      {
        ts := ts + [i as real / numFrames as real];
        i := i + 1;
      }
      tValues := ts;
      numTweenFrames := numFrames;
      var o := tweenOffsets;
      if pos.Some? {
        o := o.(pos := Minus(pos.value, camera.pos));
      }
      if coi.Some? {
        o := o.(coi := Minus(coi.value, camera.coi));
      }
      if up.Some? {
        o := o.(up := Minus(up.value, camera.up));
      }
      if fov.Some? && fov.value != 0.0 {
        o := o.(fov := fov.value - camera.fov);
      }
      if near.Some? && near.value != 0.0 {
        o := o.(near := near.value - camera.near);
      }
      tweenOffsets := o;
    }

    /**
     * `updateTween(function)`: while tweening, moves every camera value by its offset times
     * the easing (the default one when none is given) of the current frame's parameter,
     * re-derives the camera, advances the frame and stops once the last frame is done;
     * returns whether it is still tweening. Reading a parameter past the end of the list
     * raises `IndexError` before anything changes.
     */
    method UpdateTween(easing: Option<real -> real>) returns (r: Result<bool, VecError>)
      requires IsSqrt(sqrt) && pyWidth > 0 && pyHeight > 0
      modifies this`camera, this`axes, this`view, this`curTweenFrame, this`isTweening
      ensures !old(isTweening) ==> r == Success(false) && unchanged(this)
      ensures old(isTweening) && old(curTweenFrame) >= |tValues| ==> r == Failure(IndexError) && unchanged(this)
      ensures old(isTweening) && old(curTweenFrame) < |tValues| ==>
        var ease := if easing.Some? then easing.value else Ease;
        && camera == Stepped(old(camera), tweenOffsets, old(ease(tValues[curTweenFrame])))
        && axes == CameraBasis(sqrt, camera.pos, camera.coi, camera.up)
        && CameraSet()
        && curTweenFrame == old(curTweenFrame) + 1
        && isTweening == (curTweenFrame < numTweenFrames)
        && r == Success(isTweening)
    {
      var ease := if easing.Some? then easing.value else Ease;
      if isTweening {
        if curTweenFrame >= |tValues| {
          return Failure(IndexError);
        }
        var stepped := Stepped(camera, tweenOffsets, ease(tValues[curTweenFrame]));
        camera := stepped;
        SetCamera(camera.pos, camera.coi, camera.up, camera.fov, camera.near);
        assert camera == stepped;
        curTweenFrame := curTweenFrame + 1;
        if curTweenFrame >= numTweenFrames {
          isTweening := false;
        }
      }
      return Success(isTweening);
    }

    /** The squared distance from the ray's origin to the light, as the shadow test uses it. */
    static function LightDist2(light: Light, ray: Ray): real
    {
      MagnitudeSquared(Minus(light.pos, ray.origin))
    }

    /**
     * `getColorOfHit(hitData)`: `None` for no hit; otherwise the material's ambient colour
     * times the scene's, plus, for each light in order whose shadow ray is not blocked and
     * whose intensity is truthy, the diffuse and specular portion times the intensity.
     */
    method GetColorOfHit(hitData: RayHitResult?) returns (c: Option<Vec3>)
      requires Ready()
      requires hitData != null ==> OfScene(hitData)
      ensures hitData == null ==> c.None?
      ensures hitData != null ==> c == Some(LocalColor(SceneOf(), HitOf(hitData)))
    {
      if hitData == null {
        return None;
      }
      ghost var scene := SceneOf();
      ghost var hit := HitOf(hitData);
      var material := hitData.obj.material;
      var ambient := Product(material.ambient, sceneAmbient);
      if |lights| > 0 {
        var objNormal := hitData.GetNormal(0);
        var vectorToCam := Neg(hitData.ray.direction);
        var p := hitData.points[0];
        ghost var ls := scene.lights;
        assert ls == lights;
        for k := 0 to |lights|
          invariant ambient == Lit(scene, hit, ls[..k])
        {
          LitPrefix(scene, hit, ls, k);
          var portion := LightPortion(hitData, lights[k], objNormal, vectorToCam, p, scene, hit);
          if portion.Some? {
            ambient := Plus(ambient, portion.value);
          }
        }
        assert ls[..|lights|] == ls;
      }
      return Some(ambient);
    }

    /**
     * The body of `getColorOfHit`'s loop for one light: nothing when the shadow ray is
     * blocked or the intensity is falsy, else the diffuse and specular portion times the intensity.
     */
    method LightPortion(hitData: RayHitResult, light: Light, objNormal: Vec3, vectorToCam: Vec3, p: Vec3,
                        ghost scene: Scene, ghost hit: Hit)
      returns (add: Option<Vec3>)
      requires Ready() && OfScene(hitData) && scene == SceneOf() && hit == HitOf(hitData)
      requires objNormal == HitNormalOf(hit) && vectorToCam == Neg(hit.ray.direction) && p == HitPoint(hit)
      ensures add == Contribution(scene, hit, light)
      ensures add.Some? ==>
        var l := Normalized(sqrt, Minus(light.pos, p));
        add.value == Times(Phong(hitData.obj.material, light, Dot(l, objNormal), MirroredDot(l, objNormal, vectorToCam)),
                           Intensity(light, p).value)
    {
      var material := hitData.obj.material;
      var lightVector := Normalized(sqrt, Minus(light.pos, p));
      var shadowRay := NewRay(sqrt, Plus(p, Times(objNormal, SurfaceOffset)), lightVector, true);
      assert shadowRay == ShadowRay(scene, hit, light);
      var blocker := RayCast(shadowRay, true, Some(light));
      if blocker != null {
        return None;
      }
      var lightPortion := Zero(3);
      var lightIntensity := Intensity(light, p);
      if lightIntensity.Some? && lightIntensity.value != 0.0 {
        var diffuseStrength := Dot(lightVector, objNormal);
        if diffuseStrength > 0.0 {
          lightPortion := Plus(lightPortion, Times(Product(light.diffuse, material.diffuse), diffuseStrength));
        }
        var lightVectorParallel := Times(objNormal, diffuseStrength);
        var reflectionVector := Minus(Times(lightVectorParallel, 2.0), lightVector);
        var specularStrength := Dot(reflectionVector, vectorToCam);
        if specularStrength > 0.0 {
          lightPortion := Plus(lightPortion, Times(Product(light.specular, material.specular),
                                                   PowInt(specularStrength, material.hardness)));
        }
        assert lightPortion == Portion(material, light, lightVector, objNormal, vectorToCam);
        return Some(Times(lightPortion, lightIntensity.value));
      }
      return None;
    }

    /**
     * `getColorOfHitRecursive(hitData, recursionDepth)`, with `fuel` bounding the recursion
     * in place of the interpreter's recursion limit (`None` when it runs out). It agrees with
     * `Shade` on the value returned and on `mFinalLightComponent` afterwards.
     */
    method GetColorOfHitRecursive(hitData: RayHitResult?, depth: int, fuel: nat, ghost scene: Scene, ghost h: Option<Hit>)
      returns (r: Option<Shaded>)
      requires Ready() && depth <= TopDepth
      requires hitData != null ==> OfScene(hitData)
      requires scene == SceneOf() && h == HitOpt(hitData)
      modifies this`finalLight
      ensures Outcome(r, finalLight) == Shade(scene, h, depth, fuel, old(finalLight))
      decreases fuel, 1
    {
      if hitData == null {
        r := Some(if depth == TopDepth then Pixel(bgColor) else Colour(Zero(3)));
      } else if fuel == 0 {
        r := None;
      } else {
        r := ShadeHitInPlace(hitData, depth, fuel, scene, h.value);
      }
    }

    /** `getColorOfHitRecursive` on a hit with fuel left. */
    method ShadeHitInPlace(hitData: RayHitResult, depth: int, fuel: nat, ghost scene: Scene, ghost hit: Hit)
      returns (r: Option<Shaded>)
      requires Ready() && depth <= TopDepth && fuel > 0
      requires OfScene(hitData)
      requires scene == SceneOf() && hit == HitOf(hitData)
      modifies this`finalLight
      ensures Outcome(r, finalLight) == Shade(scene, Some(hit), depth, fuel, old(finalLight))
      decreases fuel, 0
    {
      EnterHit(hitData, depth);
      var before := finalLight;
      assert before == if depth == TopDepth then LocalColor(scene, hit) else old(finalLight);
      var next := ReflectedHit(hitData);
      ghost var bounce := Bounce(scene, hit);
      assert HitOpt(next) == bounce;
      var below := GetColorOfHitRecursive(next, Deeper(depth), Spent(fuel), scene, bounce);
      ghost var rest := Shade(scene, bounce, Deeper(depth), Spent(fuel), before);
      r := FinishHit(hitData, depth, before, below, rest);
      assert SceneOf() == scene && HitOf(hitData) == hit;
      assert Outcome(r, finalLight) == Finish(depth, LocalColor(scene, hit), before, rest);
      ShadeHit(scene, hit, depth, fuel, old(finalLight));
    }

    /** At the top depth the field first becomes the hit's local colour. */
    method EnterHit(hitData: RayHitResult, depth: int)
      requires Ready() && OfScene(hitData)
      modifies this`finalLight
      ensures finalLight == if depth == TopDepth then LocalColor(SceneOf(), HitOf(hitData)) else old(finalLight)
    {
      if depth == TopDepth {
        var local := GetColorOfHit(hitData);
        finalLight := local.value;
      }
    }

    /** The recursion's reflected ray, cast: what `Bounce` finds. */
    method ReflectedHit(hitData: RayHitResult) returns (next: RayHitResult?)
      requires Ready() && OfScene(hitData)
      ensures next != null ==> OfScene(next)
      ensures HitOpt(next) == Bounce(SceneOf(), HitOf(hitData))
    {
      // The direction to the camera mirrored about the normal, from just off the surface.
      next := RayCast(Reflected(sqrt, HitOf(hitData)), false, None);
    }

    /** The end of a hit's recursion step, given what the reflected ray returned. */
    method FinishHit(hitData: RayHitResult, depth: int, before: Vec3, below: Option<Shaded>, ghost rest: Option<(Shaded, Vec3)>)
      returns (r: Option<Shaded>)
      requires Ready() && OfScene(hitData)
      requires Outcome(below, finalLight) == rest && (rest.Some? ==> rest.value.0.Colour?)
      modifies this`finalLight
      ensures Outcome(r, finalLight) == Finish(depth, LocalColor(SceneOf(), HitOf(hitData)), before, rest)
    {
      if below.None? {
        r := None;
      } else {
        finalLight := Blend(before, below.value.v);
        if depth == TopDepth {
          ClampFinalLight();
          r := Some(Pixel(ToRgb(finalLight)));
        } else {
          var c := GetColorOfHit(hitData);
          r := Some(Colour(c.value));
        }
      }
    }

    /** The three in-place `min(1, x)` updates of `mFinalLightComponent` at the top depth. */
    method ClampFinalLight()
      modifies this`finalLight
      ensures finalLight == Clamp(old(finalLight))
    {
      finalLight := finalLight[0 := Min(1.0, finalLight[0])];
      finalLight := finalLight[1 := Min(1.0, finalLight[1])];
      finalLight := finalLight[2 := Min(1.0, finalLight[2])];
    }

    /** What rendering reads of the ray tracer. */
    function ShotOf(): Shot
      reads this`objects, this`lights, this`sceneAmbient, this`bgColor, this`camera, this`axes, this`view
    {
      Shot(SceneOf(), camera.pos, axes, view)
    }

    /** `RenderPixel` for column `x` of row `y`, seen through `Row`. */
    method RenderColumn(x: nat, y: int, fuel: nat, ghost s: Shot, ghost row: seq<Option<Rgb>>) returns (c: Option<Rgb>)
      requires Ready() && s == ShotOf() && x < |row| && row == Row(s, y, fuel, |row|)
      modifies this`finalLight
      ensures c == row[x]
    {
      c := RenderPixel(x, y, fuel, s);
    }

    /** The colour of one pass of `renderOneLine`'s loop: the pixel's ray, cast and shaded from the top depth. */
    method RenderPixel(x: int, y: int, fuel: nat, ghost s: Shot) returns (c: Option<Rgb>)
      requires Ready() && s == ShotOf()
      modifies this`finalLight
      ensures c == PixelAt(s, x, y, fuel)
    {
      var hitData := CastPixel(x, y, s);
      ghost var h := HitOpt(hitData);
      ghost var start := finalLight;
      var color := GetColorOfHitRecursive(hitData, TopDepth, fuel, s.scene, h);
      ShadeIgnoresFinal(s.scene, h, TopDepth, fuel, start, Zero(3));
      c := TopColour(Outcome(color, finalLight));
    }

    /** The ray cast of one pass of `renderOneLine`'s loop. */
    method CastPixel(x: int, y: int, ghost s: Shot) returns (hitData: RayHitResult?)
      requires Ready() && s == ShotOf()
      ensures hitData != null ==> OfScene(hitData)
      ensures HitOpt(hitData) == Cast(sqrt, objects, PixelRay(s, x, y))
    {
      var direction := Minus(CalculatePixelPos(x as real, y as real), camera.pos);
      hitData := RayCast(NewRay(sqrt, camera.pos, direction, false), false, None);
    }

    /**
     * `renderOneLine(iy)`: every pixel of row `iy`, left to right, gets its colour; a row
     * outside the surface is shaded but not written. It stops, returning `false`, at the
     * first pixel whose recursion reaches the limit, with the pixels before it written.
     */
    method RenderOneLine(iy: int, fuel: nat) returns (ok: bool)
      requires Valid()
      modifies surface, this`finalLight
      ensures var row := Row(ShotOf(), iy, fuel, pyWidth);
        && (ok <==> Reach(row) == pyWidth)
        && forall x, y :: 0 <= x < pyWidth && 0 <= y < pyHeight ==>
             surface[x, y] == if y == iy && x < Reach(row) then row[x].value else old(surface[x, y])
    {
      ghost var s := ShotOf();
      ghost var row := Row(s, iy, fuel, pyWidth);
      for x := 0 to pyWidth
        invariant forall k :: 0 <= k < x ==> row[k].Some?
        invariant forall i, j :: 0 <= i < pyWidth && 0 <= j < pyHeight ==>
          surface[i, j] == if j == iy && i < x then row[i].value else old(surface[i, j])
      {
        var color := RenderColumn(x, iy, fuel, s, row);
        if color.None? {
          assert Reach(row) == x;
          return false;
        }
        SetAt(surface, x, iy, color.value);
        // Arithmetic alone tells the column just written from the earlier ones.
        forall k | 0 <= k < x + 1 ensures row[k].Some? {
          if k == x {
          }
        }
        forall i, j | 0 <= i < pyWidth && 0 <= j < pyHeight
          ensures surface[i, j] == if j == iy && i < x + 1 then row[i].value else old(surface[i, j])
        {
          if j == iy && i == x {
          }
        }
      }
      return true;
    }

    /**
     * `rayCast(ray, isShadow, light)`. With both a shadow flag and a light, the result of the
     * first object holding a distance whose square is within the light's, untouched, or
     * `None`. Otherwise every result is collected and the nearest distance is selected; the
     * winning result is cut down to that one distance and point, in place.
     */
    method RayCast(ray: Ray, isShadow: bool, light: Option<Light>) returns (r: RayHitResult?)
      requires Ready()
      ensures isShadow && light.Some? ==>
        var b := FirstBlocker(sqrt, objects, ray, LightDist2(light.value, ray), 0);
        (r == null <==> b.None?)
        && (r != null ==> fresh(r) && Records(r, ray, objects[b.value], Hits(sqrt, objects[b.value], ray).value))
      ensures !(isShadow && light.Some?) ==>
        var h := Cast(sqrt, objects, ray);
        (r == null <==> h.None?) && (r != null ==> fresh(r) && Records(r, ray, h.value.obj, [h.value.dist]))
    {
      var shadow := isShadow && light.Some?;
      var lightDist2 := 0.0;
      if light.Some? {
        lightDist2 := LightDist2(light.value, ray);
      }
      // The mode never changes inside the loop over the objects, so the loop is written once
      // per mode. A shadow ray that nothing blocks collects nothing, and the tail then finds no hit.
      if shadow {
        r := FirstBlockingResult(sqrt, objects, ray, lightDist2);
      } else {
        var resultList := AllResults(sqrt, objects, ray);
        r := NearestResult(ray, resultList);
      }
    }

    /**
     * The tail of `rayCast` on the collected results: no hit when there are none or when
     * the last one holds no distance; otherwise the nearest result, cut down to its nearest
     * distance.
     */
    method NearestResult(ray: Ray, resultList: seq<RayHitResult>) returns (r: RayHitResult?)
      requires Ready()
      requires resultList == [] || Mirrors(resultList, Collected(sqrt, objects, ray), ray)
      modifies resultList
      ensures resultList == [] ==> r == null
      ensures resultList != [] ==>
        var h := Cast(sqrt, objects, ray);
        (r == null <==> h.None?) && (r != null ==> r in resultList && Records(r, ray, h.value.obj, [h.value.dist]))
    {
      if |resultList| == 0 || |resultList[|resultList| - 1].dists| == 0 {
        return null;
      }
      ghost var rs := Collected(sqrt, objects, ray);
      ghost var last := |resultList| - 1;
      assert resultList[last].dists == rs[last].dists;
      CastIsNearest(sqrt, objects, ray);
      var cur, distIndex := SelectNearest(resultList, rs, ray);
      cur.KeepOnly(distIndex);
      r := cur;
    }
  }

  /** A step of `ix` and `iy` moves the pixel by whole multiples of the per-pixel camera axes. */
  lemma PixelPosAffine(rt: Raytracer, ix: real, iy: real, dx: real, dy: real)
    ensures forall i :: 0 <= i < 3 ==>
      rt.CalculatePixelPos(ix + dx, iy + dy)[i]
      == rt.CalculatePixelPos(ix, iy)[i] + rt.view.widthRatio * dx * rt.axes.x[i] - rt.view.heightRatio * dy * rt.axes.y[i]
  {
  }

  /** After `setCamera`, the centre of the surface maps to the point `near` straight ahead of the camera. */
  lemma ViewCentre(rt: Raytracer)
    requires rt.CameraSet()
    ensures forall i :: 0 <= i < 3 ==>
      rt.CalculatePixelPos(rt.pyWidth as real / 2.0, rt.pyHeight as real / 2.0)[i]
      == rt.camera.pos[i] + rt.camera.near * rt.axes.z[i]
  {
    var v, c, b := rt.view, rt.camera, rt.axes;
    // Half the surface is half the view plane, on each axis.
    assert v.widthRatio * (rt.pyWidth as real / 2.0) == v.halfWidth;
    assert v.heightRatio * (rt.pyHeight as real / 2.0) == v.halfHeight;
    assert v.origin == Minus(Plus(Plus(c.pos, Times(b.z, c.near)), Times(b.y, v.halfHeight)), Times(b.x, v.halfWidth));
  }

  /**
   * `Raytracer(renderSurface)` with the constructor's default arguments: a white scene
   * ambient `VectorN((1, 1, 1))` and the grey background `(50, 50, 50)`.
   */
  method NewDefaultRaytracer(sqrt: real -> real, tanDegrees: real -> real, renderSurface: array2<Rgb>)
    returns (rt: Raytracer)
    requires IsSqrt(sqrt) && renderSurface.Length0 > 0 && renderSurface.Length1 > 0
    ensures fresh(rt) && rt.Valid() && rt.surface == renderSurface
    ensures rt.sceneAmbient == [1.0, 1.0, 1.0] && rt.bgColor == Rgb(50, 50, 50)
    ensures rt.objects == [] && rt.lights == [] && rt.isTweening
  {
    rt := new Raytracer(sqrt, tanDegrees, renderSurface, DefaultSceneAmbient, DefaultBGColor);
  }
}

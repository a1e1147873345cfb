/**
 * The colour `Raytracer.getColorOfHit` and `getColorOfHitRecursive` of raytracer.py
 * compute, stated on values.
 *
 * Local shading is Phong-like: the material's ambient colour times the scene's, plus, per
 * light whose shadow ray is clear and whose intensity is truthy, a diffuse and a specular
 * term scaled by the intensity. The recursive blend mixes the top-level hit's local colour
 * half and half with what the reflected ray returns; below the top level that return value
 * is the reflected hit's LOCAL colour, so only the first bounce shows, while the recursion
 * itself goes on until a reflected ray misses.
 */
module Shading {
  import opened Wrappers
  import opened RealMath
  import opened Math3D
  import opened Rays
  import opened Primitives
  import opened Lights
  import opened Visibility

  /** The depth `getColorOfHitRecursive` starts at, and the only depth it tests for. */
  const TopDepth: int := 5

  /** How far off the surface a secondary ray starts, along the normal. */
  const SurfaceOffset: real := 0.001

  /** An integer colour tuple as pygame takes it. */
  datatype Rgb = Rgb(r: int, g: int, b: int)

  /** What `getColorOfHitRecursive` returns: a tuple at the top depth, a vector below it. */
  datatype Shaded = Pixel(rgb: Rgb) | Colour(v: Vec3)

  /** The parts of a `Raytracer` that shading reads. */
  datatype Scene = Scene(sqrt: real -> real, objects: seq<Primitive>, lights: seq<Light>, ambient: Vec3, bg: Rgb)

  ghost predicate SceneOk(scene: Scene)
  {
    SceneObjects(scene.sqrt, scene.objects)
  }

  /** The hit is one of the scene's primitives. */
  predicate InScene(scene: Scene, h: Option<Hit>)
  {
    h.Some? ==> h.value.obj in scene.objects
  }

  function HitPoint(hit: Hit): Vec3
  {
    GetPoint(hit.ray, hit.dist)
  }

  function HitNormalOf(hit: Hit): Vec3
    requires WellFormed(hit.obj)
  {
    HitNormal(hit.ray, hit.obj, HitPoint(hit))
  }

  /** A ray leaving the hit point from just off the surface. */
  function OffSurface(p: Vec3, n: Vec3): (q: Vec3)
    ensures Minus(q, p) == Times(n, SurfaceOffset)
  {
    Plus(p, Times(n, SurfaceOffset))
  }

  // ---------------------------------------------------------------------------
  // getColorOfHit
  // ---------------------------------------------------------------------------

  /**
   * One light's portion before intensity, for the diffuse strength `L . N` and the
   * specular strength `R . V`: the diffuse product scaled by the first when it is positive,
   * plus the specular product scaled by the second raised to the hardness when that is positive.
   */
  function Phong(mat: Material, light: Light, diffuseStrength: real, specularStrength: real): (c: Vec3)
    ensures forall i :: 0 <= i < 3 ==>
      (c[i]
       == (if diffuseStrength > 0.0 then light.diffuse[i] * mat.diffuse[i] * diffuseStrength else 0.0)
        + (if specularStrength > 0.0
           then light.specular[i] * mat.specular[i] * PowInt(specularStrength, mat.hardness) else 0.0))
  {
    var withDiffuse :=
      if diffuseStrength > 0.0 then Plus(Zero(3), Times(Product(light.diffuse, mat.diffuse), diffuseStrength))
      else Zero(3);
    if specularStrength > 0.0 then
      Plus(withDiffuse, Times(Product(light.specular, mat.specular), PowInt(specularStrength, mat.hardness)))
    else withDiffuse
  }

  /**
   * One light's portion before intensity for the unit direction `L` to the light, the
   * normal `N` and the direction `V` to the camera: `Phong` at the diffuse strength `L . N`
   * and the specular strength `R . V`, where `R = 2 (L . N) N - L` mirrors the light
   * direction about the normal, so that `R . V = 2 (L . N)(N . V) - L . V`.
   */
  function Portion(mat: Material, light: Light, toLight: Vec3, n: Vec3, toCam: Vec3): (c: Vec3)
    ensures c == Phong(mat, light, Dot(toLight, n), MirroredDot(toLight, n, toCam))
  {
    var diffuseStrength := Dot(toLight, n);
    var reflection := Minus(Times(Times(n, diffuseStrength), 2.0), toLight);
    SpecularStrength(toLight, n, toCam);
    Phong(mat, light, diffuseStrength, Dot(reflection, toCam))
  }

  /** `R . V` for `R = 2 (L . N) N - L`, expanded: `2 (L . N)(N . V) - L . V`. */
  function MirroredDot(toLight: Vec3, n: Vec3, toCam: Vec3): real
  {
    2.0 * Dot(toLight, n) * Dot(n, toCam) - Dot(toLight, toCam)
  }

  /** `R . V` for the mirrored light direction `R = 2 (L . N) N - L`. */
  lemma SpecularStrength(toLight: Vec3, n: Vec3, toCam: Vec3)
    ensures Dot(Minus(Times(Times(n, Dot(toLight, n)), 2.0), toLight), toCam)
      == 2.0 * Dot(toLight, n) * Dot(n, toCam) - Dot(toLight, toCam)
    ensures Dot(Minus(Times(Times(n, Dot(toLight, n)), 2.0), toLight), toCam) == MirroredDot(toLight, n, toCam)
  {
    var ln := Dot(toLight, n);
    var parallel := Times(n, ln);
    DotMinus(Times(parallel, 2.0), toLight, toCam);
    DotTimes(parallel, 2.0, toCam);
    DotTimes(n, ln, toCam);
  }

  /** The shadow ray toward `light` from the hit point: off the surface, along the unit direction to the light. */
  function ShadowRay(scene: Scene, hit: Hit, light: Light): (r: Ray)
    requires SceneOk(scene) && WellFormed(hit.obj)
    ensures Minus(r.origin, HitPoint(hit)) == Times(HitNormalOf(hit), SurfaceOffset)
    ensures !AllZero(Minus(light.pos, HitPoint(hit))) ==> Dot(r.direction, r.direction) == 1.0
  {
    var p := HitPoint(hit);
    if AllZero(Minus(light.pos, p)) then Ray(OffSurface(p, HitNormalOf(hit)), Normalized(scene.sqrt, Minus(light.pos, p)))
    else
      NormalizedUnit(scene.sqrt, Minus(light.pos, p));
      Ray(OffSurface(p, HitNormalOf(hit)), Normalized(scene.sqrt, Minus(light.pos, p)))
  }

  /**
   * What one light adds in `getColorOfHit`: nothing when its shadow ray meets an object
   * no farther than the light, nothing when its intensity is falsy (`None` or 0), and its
   * portion scaled by the intensity otherwise.
   */
  function Contribution(scene: Scene, hit: Hit, light: Light): (c: Option<Vec3>)
    requires SceneOk(scene) && InScene(scene, Some(hit))
    ensures c.Some? ==> !Shadowed(scene.sqrt, scene.objects, ShadowRay(scene, hit, light),
                                  MagnitudeSquared(Minus(light.pos, ShadowRay(scene, hit, light).origin)))
    ensures c.Some? ==> var k := Intensity(light, HitPoint(hit)); k.Some? && 0.0 < k.value <= 1.0
    ensures c.None? <==>
      || Shadowed(scene.sqrt, scene.objects, ShadowRay(scene, hit, light),
                  MagnitudeSquared(Minus(light.pos, ShadowRay(scene, hit, light).origin)))
      || Intensity(light, HitPoint(hit)) in {None, Some(NoIntensity)}
    ensures c.Some? ==> c.value == Times(Portion(hit.obj.material, light, ShadowRay(scene, hit, light).direction,
                                                 HitNormalOf(hit), Neg(hit.ray.direction)),
                                         Intensity(light, HitPoint(hit)).value)
  {
    var p := HitPoint(hit);
    var n := HitNormalOf(hit);
    var shadow := ShadowRay(scene, hit, light);
    if Shadowed(scene.sqrt, scene.objects, shadow, MagnitudeSquared(Minus(light.pos, shadow.origin))) then None
    else
      match Intensity(light, p)
      case None => None
      case Some(k) =>
        if k == NoIntensity then None
        else Some(Times(Portion(hit.obj.material, light, shadow.direction, n, Neg(hit.ray.direction)), k))
  }

  /**
   * What a contributing light adds, channel by channel: its diffuse and specular terms
   * (`Portion`) for the shadow ray's direction `L`, the normal `N` and the direction
   * `V` back to the camera, scaled by its intensity.
   */
  lemma ContributionTerms(scene: Scene, hit: Hit, light: Light)
    requires SceneOk(scene) && InScene(scene, Some(hit)) && Contribution(scene, hit, light).Some?
    ensures var l, n, v := ShadowRay(scene, hit, light).direction, HitNormalOf(hit), Neg(hit.ray.direction);
      Contribution(scene, hit, light).value
      == Times(Phong(hit.obj.material, light, Dot(l, n), MirroredDot(l, n, v)), Intensity(light, HitPoint(hit)).value)
  {
    var l, n, v := ShadowRay(scene, hit, light).direction, HitNormalOf(hit), Neg(hit.ray.direction);
    assert Portion(hit.obj.material, light, l, n, v) == Phong(hit.obj.material, light, Dot(l, n), MirroredDot(l, n, v));
  }

  /** The colour after the lights `lights`, in order, starting from the ambient term. */
  function Lit(scene: Scene, hit: Hit, lights: seq<Light>): (c: Vec3)
    requires SceneOk(scene) && InScene(scene, Some(hit))
    ensures (forall k :: 0 <= k < |lights| ==> Contribution(scene, hit, lights[k]).None?) ==>
      c == Product(hit.obj.material.ambient, scene.ambient)
    decreases |lights|
  {
    if lights == [] then Product(hit.obj.material.ambient, scene.ambient)
    else
      var acc := Lit(scene, hit, lights[..|lights| - 1]);
      match Contribution(scene, hit, lights[|lights| - 1])
      case None => acc
      case Some(c) => Plus(acc, c)
  }

  /** One more light adds its contribution, if it has one, to the colour of the lights before it. */
  lemma LitAppend(scene: Scene, hit: Hit, lights: seq<Light>, light: Light)
    requires SceneOk(scene) && InScene(scene, Some(hit))
    ensures Lit(scene, hit, lights + [light])
      == match Contribution(scene, hit, light)
         case None => Lit(scene, hit, lights)
         case Some(c) => Plus(Lit(scene, hit, lights), c)
  {
    assert (lights + [light])[..|lights|] == lights;
  }

  /** `LitAppend` for the lights up to and including index `k`, as `getColorOfHit`'s loop reaches them. */
  lemma LitPrefix(scene: Scene, hit: Hit, lights: seq<Light>, k: int)
    requires SceneOk(scene) && InScene(scene, Some(hit)) && 0 <= k < |lights|
    ensures Lit(scene, hit, lights[..k + 1])
      == match Contribution(scene, hit, lights[k])
         case None => Lit(scene, hit, lights[..k])
         case Some(c) => Plus(Lit(scene, hit, lights[..k]), c)
  {
    assert lights[..k + 1] == lights[..k] + [lights[k]];
    LitAppend(scene, hit, lights[..k], lights[k]);
  }

  /** `getColorOfHit(hit)`: with no lights, exactly the material's ambient colour times the scene's. */
  function LocalColor(scene: Scene, hit: Hit): (c: Vec3)
    requires SceneOk(scene) && InScene(scene, Some(hit))
    ensures scene.lights == [] ==> c == Product(hit.obj.material.ambient, scene.ambient)
  {
    Lit(scene, hit, scene.lights)
  }

  predicate NonNeg(v: Vec)
  {
    forall i :: 0 <= i < |v| ==> 0.0 <= v[i]
  }

  /** Every colour of the scene (ambient, lights, materials) is non-negative. */
  predicate NonNegColours(scene: Scene)
  {
    NonNeg(scene.ambient)
    && (forall l :: l in scene.lights ==> NonNeg(l.diffuse) && NonNeg(l.specular))
    && (forall o :: o in scene.objects ==>
          NonNeg(o.material.ambient) && NonNeg(o.material.diffuse) && NonNeg(o.material.specular))
  }

  lemma ProductNonNeg(a: Vec3, b: Vec3)
    requires NonNeg(a) && NonNeg(b)
    ensures NonNeg(Product(a, b))
  {
    forall i | 0 <= i < 3
      ensures 0.0 <= Product(a, b)[i]
    {
      MulNonNeg(a[i], b[i]);
    }
  }

  lemma MulNonNeg(x: real, y: real)
    requires 0.0 <= x && 0.0 <= y
    ensures 0.0 <= x * y
  {
  }

  lemma TimesNonNeg(a: Vec3, s: real)
    requires NonNeg(a) && 0.0 <= s
    ensures NonNeg(Times(a, s))
  {
    forall i | 0 <= i < 3
      ensures 0.0 <= Times(a, s)[i]
    {
      MulNonNeg(a[i], s);
    }
  }

  /** With non-negative colours, a light never takes anything away. */
  lemma ContributionNonNeg(scene: Scene, hit: Hit, light: Light)
    requires SceneOk(scene) && InScene(scene, Some(hit)) && NonNegColours(scene) && light in scene.lights
    ensures Contribution(scene, hit, light).Some? ==> NonNeg(Contribution(scene, hit, light).value)
  {
    var c := Contribution(scene, hit, light);
    if c.Some? {
      var mat := hit.obj.material;
      var shadow := ShadowRay(scene, hit, light);
      var n := HitNormalOf(hit);
      var toCam := Neg(hit.ray.direction);
      var ds := Dot(shadow.direction, n);
      ProductNonNeg(light.diffuse, mat.diffuse);
      ProductNonNeg(light.specular, mat.specular);
      var withDiffuse := if ds > 0.0 then Plus(Zero(3), Times(Product(light.diffuse, mat.diffuse), ds)) else Zero(3);
      assert NonNeg(withDiffuse) by {
        if ds > 0.0 {
          TimesNonNeg(Product(light.diffuse, mat.diffuse), ds);
        }
      }
      var reflection := Minus(Times(Times(n, ds), 2.0), shadow.direction);
      var ss := Dot(reflection, toCam);
      var portion := Portion(mat, light, shadow.direction, n, toCam);
      assert NonNeg(portion) by {
        if ss > 0.0 {
          TimesNonNeg(Product(light.specular, mat.specular), PowInt(ss, mat.hardness));
        }
      }
      TimesNonNeg(portion, Intensity(light, HitPoint(hit)).value);
    }
  }

  /**
   * With non-negative colours the local colour is non-negative and, channel by channel,
   * at least the ambient term: lights only brighten.
   */
  lemma {:induction false} LitAboveAmbient(scene: Scene, hit: Hit, lights: seq<Light>)
    requires SceneOk(scene) && InScene(scene, Some(hit)) && NonNegColours(scene)
    requires forall l :: l in lights ==> l in scene.lights
    ensures NonNeg(Lit(scene, hit, lights))
    ensures forall i :: 0 <= i < 3 ==>
      Product(hit.obj.material.ambient, scene.ambient)[i] <= Lit(scene, hit, lights)[i]
    decreases |lights|
  {
    ProductNonNeg(hit.obj.material.ambient, scene.ambient);
    if lights != [] {
      var prefix := lights[..|lights| - 1];
      var last := lights[|lights| - 1];
      LitAboveAmbient(scene, hit, prefix);
      ContributionNonNeg(scene, hit, last);
    }
  }

  // ---------------------------------------------------------------------------
  // getColorOfHitRecursive
  // ---------------------------------------------------------------------------

  /**
   * The reflected ray of a hit: the direction to the camera mirrored about the normal,
   * leaving from just off the surface, normalized by the `Ray` constructor.
   */
  function Reflected(sqrt: real -> real, hit: Hit): (r: Ray)
    requires IsSqrt(sqrt) && WellFormed(hit.obj)
    ensures Minus(r.origin, HitPoint(hit)) == Times(HitNormalOf(hit), SurfaceOffset)
    ensures var n, toCam := HitNormalOf(hit), Neg(hit.ray.direction);
      !AllZero(Minus(Times(Times(n, Dot(toCam, n)), 2.0), toCam)) ==> Dot(r.direction, r.direction) == 1.0
  {
    var n := HitNormalOf(hit);
    var toCam := Neg(hit.ray.direction);
    var parallel := Times(n, Dot(toCam, n));
    NewRay(sqrt, OffSurface(HitPoint(hit), n), Minus(Times(parallel, 2.0), toCam), false)
  }

  /** What the reflected ray of a hit finds. */
  function Bounce(scene: Scene, hit: Hit): (h: Option<Hit>)
    requires SceneOk(scene) && InScene(scene, Some(hit))
    ensures InScene(scene, h)
  {
    Cast(scene.sqrt, scene.objects, Reflected(scene.sqrt, hit))
  }

  /** `min(1, x)` on each channel: an upper clamp only. */
  function Clamp(v: Vec3): (c: Vec3)
    ensures forall i :: 0 <= i < 3 ==> c[i] <= 1.0 && c[i] <= v[i] && (v[i] < 1.0 ==> c[i] == v[i])
  {
    [Min(1.0, v[0]), Min(1.0, v[1]), Min(1.0, v[2])]
  }

  /** `n` is `x` truncated toward zero: within 1 of it, on the side of zero. */
  predicate TruncatedFrom(n: int, x: real)
  {
    && (0.0 <= x ==> n as real <= x < n as real + 1.0)
    && (x <= 0.0 ==> n as real - 1.0 < x <= n as real)
  }

  /** `(v * 255).iTuple()`: each channel scaled and truncated toward zero. */
  function ToRgb(v: Vec3): (c: Rgb)
    ensures TruncatedFrom(c.r, v[0] * 255.0) && TruncatedFrom(c.g, v[1] * 255.0) && TruncatedFrom(c.b, v[2] * 255.0)
  {
    Rgb(Trunc(v[0] * 255.0), Trunc(v[1] * 255.0), Trunc(v[2] * 255.0))
  }

  /** `.5 * final + .5 * r`, the blend of `getColorOfHitRecursive`. */
  function Blend(final: Vec3, r: Vec3): (c: Vec3)
    ensures forall i :: 0 <= i < 3 ==> c[i] == (final[i] + r[i]) / 2.0
  {
    Plus(Times(final, 0.5), Times(r, 0.5))
  }

  /**
   * `getColorOfHitRecursive(hit, depth)` with `final` the value of `mFinalLightComponent`
   * on entry: the value returned and the field's value on return, or `None` when `fuel`
   * runs out first (the interpreter's recursion limit). A miss returns the background
   * tuple at the top depth and a zero vector below it, and leaves the field alone. A hit
   * at the top depth first sets the field to its local colour. The blend reads the field
   * before the recursive call, so what nested calls write is overwritten.
   */
  function Shade(scene: Scene, h: Option<Hit>, depth: int, fuel: nat, final: Vec3): (r: Option<(Shaded, Vec3)>)
    requires SceneOk(scene) && InScene(scene, h) && depth <= TopDepth
    ensures r.Some? && depth == TopDepth ==> r.value.0.Pixel?
    ensures r.Some? && depth < TopDepth ==> r.value.0.Colour?
    ensures h.None? ==> r == Some((if depth == TopDepth then Pixel(scene.bg) else Colour(Zero(3)), final))
    decreases fuel
  {
    if h.None? then Some((if depth == TopDepth then Pixel(scene.bg) else Colour(Zero(3)), final))
    else if fuel == 0 then None
    else
      var hit := h.value;
      var local := LocalColor(scene, hit);
      var before := if depth == TopDepth then local else final;
      Finish(depth, local, before, Shade(scene, Bounce(scene, hit), Deeper(depth), Spent(fuel), before))
  }

  /** The depth handed to the recursive call, one less. */
  function Deeper(depth: int): int
  {
    depth - 1
  }

  /** The recursion budget left for the recursive call. */
  function Spent(fuel: nat): nat
    requires fuel > 0
  {
    fuel - 1
  }

  /**
   * The end of `getColorOfHitRecursive` for a hit, given what the reflected ray returned
   * (`None` when the recursion never ended): the field becomes the blend, clamped and
   * returned as a pixel at the top depth; below it the local colour is returned.
   */
  function Finish(depth: int, local: Vec3, before: Vec3, below: Option<(Shaded, Vec3)>): (r: Option<(Shaded, Vec3)>)
    requires below.Some? ==> below.value.0.Colour?
    ensures r.Some? <==> below.Some?
    ensures r.Some? && depth == TopDepth ==> r.value.0.Pixel?
    ensures r.Some? && depth != TopDepth ==> r.value.0 == Colour(local)
  {
    if below.None? then None
    else
      var blended := Blend(before, below.value.0.v);
      if depth == TopDepth then Some((Pixel(ToRgb(Clamp(blended))), Clamp(blended)))
      else Some((Colour(local), blended))
  }

  /** One level of `Shade` on a hit with fuel left. */
  lemma ShadeHit(scene: Scene, hit: Hit, depth: int, fuel: nat, final: Vec3)
    requires SceneOk(scene) && InScene(scene, Some(hit)) && depth <= TopDepth && fuel > 0
    ensures var local := LocalColor(scene, hit);
      var before := if depth == TopDepth then local else final;
      Shade(scene, Some(hit), depth, fuel, final)
      == Finish(depth, local, before, Shade(scene, Bounce(scene, hit), Deeper(depth), Spent(fuel), before))
  {
  }

  /** The value returned does not depend on the field's value on entry. */
  lemma {:induction false} ShadeIgnoresFinal(scene: Scene, h: Option<Hit>, depth: int, fuel: nat, f1: Vec3, f2: Vec3)
    requires SceneOk(scene) && InScene(scene, h) && depth <= TopDepth
    ensures Shade(scene, h, depth, fuel, f1).Some? <==> Shade(scene, h, depth, fuel, f2).Some?
    ensures Shade(scene, h, depth, fuel, f1).Some? ==>
      Shade(scene, h, depth, fuel, f1).value.0 == Shade(scene, h, depth, fuel, f2).value.0
    decreases fuel
  {
    if h.Some? && fuel > 0 {
      var next := Bounce(scene, h.value);
      forall d: int, rest: nat, g1: Vec3, g2: Vec3 | d <= TopDepth && rest < fuel
        ensures Shade(scene, next, d, rest, g1).Some? <==> Shade(scene, next, d, rest, g2).Some?
        ensures Shade(scene, next, d, rest, g1).Some? ==>
          Shade(scene, next, d, rest, g1).value.0 == Shade(scene, next, d, rest, g2).value.0
      {
        ShadeIgnoresFinal(scene, next, d, rest, g1, g2);
      }
    }
  }

  /** Below the top depth the depth number makes no difference at all. */
  lemma {:induction false} DepthBelowTopIgnored(scene: Scene, h: Option<Hit>, d1: int, d2: int, fuel: nat, final: Vec3)
    requires SceneOk(scene) && InScene(scene, h) && d1 < TopDepth && d2 < TopDepth
    ensures Shade(scene, h, d1, fuel, final) == Shade(scene, h, d2, fuel, final)
    decreases fuel
  {
    if h.Some? && fuel > 0 {
      var next := Bounce(scene, h.value);
      forall e1: int, e2: int, rest: nat | e1 < TopDepth && e2 < TopDepth && rest < fuel
        ensures Shade(scene, next, e1, rest, final) == Shade(scene, next, e2, rest, final)
      {
        DepthBelowTopIgnored(scene, next, e1, e2, rest, final);
      }
    }
  }

  /** More fuel never changes a result that was reached. */
  lemma {:induction false} ShadeFuelMonotone(scene: Scene, h: Option<Hit>, depth: int, fuel: nat, extra: nat, final: Vec3)
    requires SceneOk(scene) && InScene(scene, h) && depth <= TopDepth
    requires Shade(scene, h, depth, fuel, final).Some?
    ensures Shade(scene, h, depth, fuel + extra, final) == Shade(scene, h, depth, fuel, final)
    decreases fuel
  {
    if h.Some? {
      var next := Bounce(scene, h.value);
      forall d: int, rest: nat, g: Vec3 | d <= TopDepth && rest < fuel && Shade(scene, next, d, rest, g).Some?
        ensures Shade(scene, next, d, rest + extra, g) == Shade(scene, next, d, rest, g)
      {
        ShadeFuelMonotone(scene, next, d, rest, extra, g);
      }
    }
  }

  /** The local colour of the hit the reflected ray finds, or zero when it misses. */
  function FirstBounce(scene: Scene, hit: Hit): Vec3
    requires SceneOk(scene) && InScene(scene, Some(hit))
  {
    match Bounce(scene, hit)
    case None => Zero(3)
    case Some(next) => LocalColor(scene, next)
  }

  /**
   * A pixel of a hit is its local colour blended half and half with the first bounce's
   * local colour, clamped above and truncated: nothing deeper than one reflection shows.
   */
  lemma TopLevelBlend(scene: Scene, hit: Hit, fuel: nat, final: Vec3)
    requires SceneOk(scene) && InScene(scene, Some(hit))
    requires Shade(scene, Some(hit), TopDepth, fuel, final).Some?
    ensures var c := Clamp(Blend(LocalColor(scene, hit), FirstBounce(scene, hit)));
      Shade(scene, Some(hit), TopDepth, fuel, final) == Some((Pixel(ToRgb(c)), c))
  {
    var next := Bounce(scene, hit);
    var below := Shade(scene, next, Deeper(TopDepth), Spent(fuel), LocalColor(scene, hit));
    assert below.Some?;
    assert below.value.0.v == FirstBounce(scene, hit);
  }

  lemma TruncBounds(x: real)
    ensures x <= 1.0 ==> Trunc(x * 255.0) <= 255
    ensures 0.0 <= x ==> 0 <= Trunc(x * 255.0)
  {
  }

  /** Every channel of a shaded pixel is at most 255 (and at least 0 for non-negative colours). */
  lemma PixelInRange(scene: Scene, hit: Hit, fuel: nat, final: Vec3)
    requires SceneOk(scene) && InScene(scene, Some(hit))
    requires Shade(scene, Some(hit), TopDepth, fuel, final).Some?
    ensures var p := Shade(scene, Some(hit), TopDepth, fuel, final).value.0.rgb;
      p.r <= 255 && p.g <= 255 && p.b <= 255
    ensures NonNegColours(scene) ==>
      var p := Shade(scene, Some(hit), TopDepth, fuel, final).value.0.rgb;
      0 <= p.r && 0 <= p.g && 0 <= p.b
  {
    TopLevelBlend(scene, hit, fuel, final);
    var local := LocalColor(scene, hit);
    var bounce := FirstBounce(scene, hit);
    var c := Clamp(Blend(local, bounce));
    TruncBounds(c[0]);
    TruncBounds(c[1]);
    TruncBounds(c[2]);
    if NonNegColours(scene) {
      LitAboveAmbient(scene, hit, scene.lights);
      var next := Bounce(scene, hit);
      if next.Some? {
        LitAboveAmbient(scene, next.value, scene.lights);
      }
      assert NonNeg(bounce);
      assert forall i :: 0 <= i < 3 ==> 0.0 <= Blend(local, bounce)[i];
    }
  }
}

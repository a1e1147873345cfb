# A verified model of the pygame ray tracer's engine

This project models the ray-tracing engine of the pygame ray tracer in Dafny. It covers
five parts:

- **The vector algebra.** The `VectorN` class of `math3d.py`, with its checked Python
  operators and their errors.
- **The scene primitives.** `Material`, `Ray` and `RayHitResult`, and the `rayHit` and
  `getNormal` methods of `Sphere`, `Plane`, `AABB` and `CylinderY` in `objects3d.py`.
- **The lights.** `Light` and `Spotlight`, in `objects3d.py`.
- **The `Raytracer` class of `raytracer.py`.** This covers:
  - the camera and its view plane, with the per-frame camera tween;
  - the mapping from a pixel to the view plane;
  - the ray cast, in its nearest-hit and shadow modes;
  - local Phong-like shading;
  - the recursive reflection blend;
  - rendering one line of pixels into a surface.

Modules follow the program's structure:

| module | file | contents |
|---|---|---|
| `Wrappers` | wrappers.dfy | `Option` and `Result` |
| `RealMath` | realmath.dfy | the square root as a parameter, `min`, `max`, `int()` truncation, integer powers |
| `Math3D` | math3d.dfy | `VectorN` values, the operators, and the `VectorN` object with `__setitem__` |
| `Rays` | rays.dfy | `Material` and `Ray` |
| `Lights` | lights.dfy | point lights and spotlights |
| `Primitives` | primitives.dfy | see below |
| `HitResults` | hits.dfy | the `RayHitResult` class and the four `rayHit` methods |
| `Visibility` | visibility.dfy | what `rayCast` finds, stated on values |
| `Shading` | shading.dfy | what `getColorOfHit` and `getColorOfHitRecursive` compute, stated on values |
| `Engine` | raytracer.dfy | the `Raytracer` class itself |

`Primitives` holds:

- the primitives as a datatype;
- the AABB constructor;
- one specification function per `rayHit`, with its geometry (each recorded distance lands
  on the surface);
- the normals.

`HitResults` proves each `rayHit` method against its specification function from
`Primitives`. The methods of `Engine` are proved against the specification functions of
`Visibility` and `Shading`.

### Behaviours of the code that the model keeps

Where the source's own docstrings and its code differ, the model follows the code:
- `updateTween`'s docstring (`raytracer.py:143-146`) promises True when the tween is done;
  the code returns `mIsTweening`, which is True while frames remain (`raytracer.py:165`).
- `Light.getIntensity`'s docstring (`objects3d.py:372-376`) speaks of a vector; the code
  returns the number `FULL_INTENSITY`.
- `getColorOfHit`'s docstring (`raytracer.py:250-256`) speaks of no special effects; the
  code shades with ambient, diffuse, specular and shadow terms.

**`rayCast` (`raytracer.py:225-247`):**
- It reports no hit when the LAST collected result holds no distance, whatever the other
  results hold. A sphere that lies wholly behind the ray's origin produces such a result.
  `Visibility.SphereBehindHidesPlane` exhibits a plane that is then missed.
- The selection starts from that last result's first distance and replaces the incumbent
  only on a strictly smaller distance. So among equal distances, the last result's first
  distance wins, and otherwise the first one in scan order wins.

**Reflection (`raytracer.py:304-337`):**
- The recursion does not stop at depth 0; it goes on until a reflected ray misses.
- Below the top level, the value returned is the hit's LOCAL colour. So only the first
  bounce reaches the pixel (`Shading.TopLevelBlend`).
- The model bounds the recursion with a fuel parameter, where the interpreter would raise
  its recursion error.

**Tween (`raytracer.py:142-165`):**
- Each frame adds `offset * ease(t_k)` to the value the frame started from. After all
  `n >= 2` frames the camera has passed its destination (`Engine.TweenPassesDestination`).
- `updateTween` also raises `IndexError` when it is called while tweening with no frame
  left. This happens right after construction, where the tween is marked running with no
  frames.

**Cylinder (`objects3d.py:314-315`):** a nearly vertical ray returns before the caps are
checked, so a vertical ray never hits a cylinder, not even its caps.

**Cross product (`math3d.py:329`):** the test meant for the right operand tests the left
one again. A right operand shorter than 3 therefore fails on indexing (IndexError), not
with the TypeError the message announces.

**Spotlight (`objects3d.py:410`):** for a point behind the spotlight, `getIntensity` falls
off its end and returns `None`, which the shading treats like an intensity of zero.

### Parameters in place of library calls

`math.sqrt` (and `** 0.5`) and `math.tan(math.radians(x))` are function-valued parameters.
`IsSqrt` states what the proofs need of the square root: its result is non-negative and
squares back to its argument. Floats are modelled as reals.

## Model

| member | source | states |
|---|---|---|
| Math3D.NewVector | math3d.py:11-32 | an int gives that many zeros; a sequence is copied element by element; any other argument raises TypeError |
| Math3D.VectorN.constructor | math3d.py:11-32 | a new vector object holds exactly the given components |
| Math3D.VectorN.SetItem | math3d.py:65-72 | succeeds exactly for a key in `[-n, n)` (negative keys count from the end); only that component changes, to the value; otherwise nothing changes (IndexError) |
| Math3D.VectorN.Copy | math3d.py:216-225 | a fresh object with equal components |
| Math3D.Equals | math3d.py:74-91 | true exactly when the other operand is a vector with the same dimension and components |
| Math3D.Add | math3d.py:93-109 | succeeds exactly for a vector of the same dimension, giving the componentwise sum; otherwise TypeError |
| Math3D.RAdd | math3d.py:111-116 | the reflected `+` succeeds under the same condition and gives the componentwise sum; otherwise it fails with TypeError |
| Math3D.Sub | math3d.py:118-135 | succeeds exactly for a vector of the same dimension, giving the componentwise difference; otherwise TypeError |
| Math3D.RSub | math3d.py:137-154 | the reflected `-` gives `other - self` componentwise under the same condition; otherwise TypeError |
| Math3D.Mul | math3d.py:156-170 | succeeds exactly for a number, scaling every component; otherwise TypeError |
| Math3D.RMul | math3d.py:172-178 | the reflected `*` succeeds exactly for a number, scaling every component; otherwise it fails with TypeError |
| Math3D.Div | math3d.py:180-194 | a non-number raises TypeError; zero raises ZeroDivisionError (on a non-empty vector); otherwise each result component times the divisor gives back the original |
| Math3D.RDiv | math3d.py:196-202 | dividing by a vector always raises NotImplementedError |
| Math3D.Neg | math3d.py:204-214 | the negation has the same dimension and adds to the original to give zero |
| Math3D.DotProduct | math3d.py:297-314 | succeeds exactly for a vector of the same dimension, giving the sum of componentwise products; otherwise TypeError |
| Math3D.Cross | math3d.py:316-339 | succeeds exactly for a 3-vector on the left and a vector of at least 3 on the right; a short right operand raises IndexError; the result is orthogonal to both operands |
| Math3D.Pairwise | math3d.py:341-359 | succeeds exactly for a vector of the same dimension, giving the componentwise product; otherwise TypeError |
| Math3D.IsZero | math3d.py:238-251 | the scan returns true exactly when every component is zero |
| Math3D.MagnitudeSquared | math3d.py:269-279 | equals the self dot product, is non-negative, and is zero exactly for a zero vector |
| Math3D.Magnitude | math3d.py:253-267 | non-negative, squares to the sum of squares, and is zero exactly for a zero vector |
| Math3D.Normalized | math3d.py:281-295 | same dimension; a zero vector is returned unchanged; otherwise each component times the (positive) magnitude gives back the original |
| Math3D.PyIndex | math3d.py:65-72 | a Python index (negative from the end) maps into range |
| Math3D.PlusCommutative | math3d.py:93-109 | vector addition commutes |
| Math3D.PlusAssociative | math3d.py:93-109 | vector addition associates |
| Math3D.TimesDistributes | math3d.py:156-170 | scaling distributes over addition |
| Math3D.DotSymmetric | math3d.py:297-314 | the dot product is symmetric |
| Math3D.DotPlus | math3d.py:297-314 | the dot product is additive in its left operand |
| Math3D.DotMinus | math3d.py:297-314 | the dot product distributes over subtraction |
| Math3D.DotTimes | math3d.py:297-314 | scaling the left operand scales the dot product |
| Math3D.DotOver | math3d.py:297-314 | dividing the left operand divides the dot product |
| Math3D.DotSelf | math3d.py:269-279 | the self dot product is non-negative, and zero exactly for a zero vector |
| Math3D.CrossOrthogonal | math3d.py:333-337 | the cross product is orthogonal to both operands |
| Math3D.NormalizedUnit | math3d.py:281-295 | a non-zero vector normalizes to unit length |
| Math3D.NormalizedOrthogonal | math3d.py:281-295 | normalizing keeps orthogonality to any vector |
| RealMath.SqrtPositive | objects3d.py:108 | the square root of a positive number is positive |
| RealMath.SqrtOfOne | math3d.py:267 | the square root of 1 is 1 |
| RealMath.Min | raytracer.py:330-332 | `min` is a lower bound of both arguments and one of them |
| RealMath.Max | objects3d.py:183-184 | the larger corner coordinate bounds both and is one of them |
| RealMath.Trunc | math3d.py:227-236 | `int()` truncates toward zero: within 1 of its argument, on the side of zero |
| RealMath.PowInt | raytracer.py:297 | a positive base raised to the hardness stays positive |
| Rays.NewMaterial | objects3d.py:9-15 | keeps the diffuse, specular and hardness; the ambient colour is 30% of the diffuse one on every channel, so it lies between 0 and the diffuse channel |
| Rays.DefaultMaterial | objects3d.py:10 | the defaults are a white specular colour and hardness 18 |
| Rays.NewRay | objects3d.py:48-54 | keeps the origin; the direction is kept when marked normalized, otherwise it has unit length (a zero direction stays zero) |
| Rays.GetPoint | objects3d.py:70-71 | the point lies `dist` times the direction away from the origin |
| Rays.GetPointZero | objects3d.py:70-71 | the point at distance 0 is the origin |
| Rays.GetPointDistance | objects3d.py:70-71 | with a unit direction, the point at `t` lies `|t|` from the origin |
| Lights.NewSpotlight | objects3d.py:382-400 | each cone angle is kept or capped at 179.99; the stored squared half-angle tangents are those of the capped angles and non-negative; the direction is kept or normalized to unit length |
| Lights.SpotFalloff | objects3d.py:419-424 | the falloff lies in [0, 1]; it is 1 inside the inner cone and 0 outside the outer cone |
| Lights.Intensity | objects3d.py:370-424 | a point light gives full intensity; a spotlight gives nothing exactly for a point not ahead of it; ahead of it, full intensity within the inner cone, the linear fall `1 - (tan2 - inner2) / (outer2 - inner2)` up to the outer cone, and none beyond both; any intensity lies in [0, 1] |
| Lights.Tangent2 | objects3d.py:412-417 | the squared tangent times the squared parallel part is the squared perpendicular part |
| Lights.FalloffMonotone | objects3d.py:419-424 | the intensity never grows as the angle off the axis grows |
| Lights.FalloffContinuous | objects3d.py:419-424 | the falloff is 1 at the inner cone's edge and 0 at the outer cone's |
| Lights.SpotAxisFull | objects3d.py:407-420 | a point ahead on the spotlight's axis gets full intensity |
| Primitives.NewPlane | objects3d.py:125-130 | keeps the offset and material; a non-zero normal becomes unit, a zero one is kept |
| Primitives.NewBox | objects3d.py:177-197 | the corners are sorted per axis into min and max, and the six face planes sit on them |
| Primitives.AxisNormalized | objects3d.py:335-336 | a unit axis direction, as the cylinder's cap planes use, is its own normalized copy |
| Primitives.BoxFacePlane | objects3d.py:186-195 | face `i`'s plane tests axis `i / 2` against the min corner (even faces) or the max corner (odd faces) |
| Primitives.HalfChord | objects3d.py:108 | the half chord is positive and squares to the radius squared minus the closest squared distance |
| Primitives.SphereHits | objects3d.py:101-121 | no result exactly when the line passes at or beyond the radius; from outside, exactly the roots `projDist +- f` that lie ahead of the origin, near first; from inside or on the surface, exactly `[projDist + f]`; never a distance behind the origin |
| Primitives.RootOnSurface | objects3d.py:108-119 | along a unit direction, both roots `projDist +- f` lie on the sphere |
| Primitives.SphereRecordsEveryHit | objects3d.py:101-121 | along a unit direction, every point ahead of the origin on the sphere is recorded, except on a line that only grazes it |
| Primitives.SurfacePointIsRoot | objects3d.py:101-121 | a point ahead of the origin on the sphere is at one of the two roots, and from inside at the far one |
| Primitives.NearRootBehind | objects3d.py:117-119 | from inside the sphere, the near root is never ahead of the origin |
| Primitives.InsideRootAhead | objects3d.py:117-119 | from inside the sphere, the far root is never behind the origin |
| Primitives.DistanceFromCenter | objects3d.py:102-104 | the squared distance from the centre of the point at `t` is a quadratic in `t` |
| Primitives.RootSolves | objects3d.py:108-119 | `projDist +- f` solves that quadratic for the squared radius |
| Primitives.SphereHitOnSurface | objects3d.py:101-121 | along a unit direction, every recorded sphere distance lands on the surface |
| Primitives.PlaneHits | objects3d.py:161-173 | no result exactly for a parallel ray or a hit behind the origin; otherwise one non-negative distance solving the plane equation |
| Primitives.PlaneHitOnPlane | objects3d.py:161-173 | the recorded point lies on the plane |
| Primitives.PlaneHitUnique | objects3d.py:161-173 | a ray not parallel to the plane that meets it at `t >= 0` records exactly `[t]` |
| Primitives.BoxHitsUpTo | objects3d.py:233-250 | after `n` faces, every kept distance is that of a face hit within its bounds, every such face's distance is kept, and none is kept exactly when no face so far was |
| Primitives.InFace | objects3d.py:239-248 | holds exactly when the point lies within `[min, max]` on both axes other than the face's |
| Primitives.FaceHit | objects3d.py:233-250 | a face's distance is at or ahead of the origin, solves the face's plane equation, and its point lies within the face |
| Primitives.FaceHits | objects3d.py:233-250 | the list of the first `n` faces' contributions, face by face |
| Primitives.PresentAt | objects3d.py:233-250 | the indices of the present entries, strictly increasing, and every present entry's index among them |
| Primitives.PresentOrder | objects3d.py:233-250 | the `k`-th present value belongs to the `k`-th present index |
| Primitives.BoxHitsArePresent | objects3d.py:233-250 | the loop's list after `n` faces is the list of present face contributions |
| Primitives.HitFaces | objects3d.py:233-250 | the faces hit within their bounds, in face order, all of them |
| Primitives.BoxHits | objects3d.py:231-258 | no result exactly when no face is hit within its bounds; otherwise 1 to 6 non-negative distances, among them the distance of every face hit within its bounds |
| Primitives.BoxHitsInFaceOrder | objects3d.py:231-258 | the `k`-th recorded distance is the plane distance of the `k`-th face hit within its bounds, in the order -X, +X, -Y, +Y, -Z, +Z |
| Primitives.BoxHitOnBox | objects3d.py:231-258 | every recorded box distance lands inside the box on all three axes |
| Primitives.FacePointOnBox | objects3d.py:239-248 | a point on a face's plane within the face's bounds lies inside the box on all three axes |
| Primitives.BoxRecordsEveryHit | objects3d.py:231-258 | a ray crossing a face's plane at `t >= 0`, not parallel to it and within the face's bounds, records `t` |
| Primitives.SideHit | objects3d.py:323-332 | a side root is kept only when it is ahead of the origin and within the widened height band |
| Primitives.CapHit | objects3d.py:335-348 | a cap hit is kept only when its plane is hit strictly inside the radius |
| Primitives.CylinderHits | objects3d.py:299-353 | no result for a negative discriminant or a nearly vertical ray, so none for a vertical one; past that return, no result exactly when nothing is kept, and otherwise the kept side roots then cap hits, 1 to 4 non-negative distances |
| Primitives.SideRoot | objects3d.py:317-320 | each of the two roots solves the side quadratic `a t^2 + b t + c = 0` |
| Primitives.SideRootSolves | objects3d.py:317-320 | a value the quadratic formula gives for the side quadratic solves it |
| Primitives.CylinderKept | objects3d.py:319-348 | at most four distances, none behind the origin; each is a side root whose point lies within the widened band, or a cap distance whose point lies strictly inside the radius |
| Primitives.QuadraticRoot | objects3d.py:309-320 | the quadratic formula's roots solve the quadratic |
| Primitives.SideQuadratic | objects3d.py:309-312 | the side quadratic at `t` is the horizontal squared distance from the axis, minus the squared radius |
| Primitives.SideRootOnSide | objects3d.py:319-320 | both side roots lie on the infinite cylinder |
| Primitives.CapHitOnCap | objects3d.py:335-348 | a kept cap hit lies on its cap plane, strictly inside the radius |
| Primitives.CylinderHitOnSurface | objects3d.py:299-353 | every recorded cylinder distance lands on the side within the band, or on a cap inside the radius |
| Primitives.RootDiscriminant | objects3d.py:309-312 | at a root of the quadratic, `(2at + b)^2` is the discriminant |
| Primitives.QuadraticRootIsOne | objects3d.py:317-320 | every root of the quadratic is one of the two roots of the formula |
| Primitives.SideRootsAreAll | objects3d.py:309-320 | every root of the side quadratic is the far or the near side root |
| Primitives.CylinderRecordsSideHit | objects3d.py:299-332 | a point ahead of the origin on the side within the widened band is recorded, unless the ray is nearly vertical |
| Primitives.CylinderRecordsCapHit | objects3d.py:299-353 | a point at or ahead of the origin on a cap plane strictly inside the radius is recorded, unless the cylinder returned early or the ray runs parallel to the caps |
| Primitives.Normal | objects3d.py:92-297 | a sphere's normal times the radius is `p - center`; a plane's is its stored normal; a box's is one of its six face normals, which one being `Primitives.BoxFacePriority`; a cylinder's is `(0, -1, 0)` at or below the base, `(0, 1, 0)` at or above the top, and between them horizontal, its `x` and `z` times the radius giving the offset from the axis |
| Primitives.HitNormal | objects3d.py:28-39 | for anything but a box, the primitive's normal at the hit point; for a box, the box's normal at the point moved back 0.001 along the ray, one of its six face normals |
| Primitives.SphereNormalUnit | objects3d.py:92-99 | on the surface, the sphere normal has unit length and points away from the centre |
| Primitives.BoxFacePriority | objects3d.py:218-229 | a box's normal is that of the first face in the order -X, +X, -Y, +Y, -Z whose test (`<= min` for -, `>= max` for +) holds, and +Z when none does; at edges and corners the earliest face wins |
| Primitives.BoxNormalOfFace | objects3d.py:210-229 | a point beyond face `k` and strictly inside on the other axes gets face `k`'s normal |
| Primitives.BoxHitNormal | objects3d.py:28-39 | after the 0.001 step back, a ray entering face `k` gets face `k`'s normal |
| Primitives.CylinderSideNormal | objects3d.py:279-297 | between the caps on the side, the normal is horizontal and of unit length |
| Primitives.Hits | objects3d.py:101-353 | no primitive records a distance behind the origin; every result except a sphere's holds one |
| HitResults.RayHitResult.constructor | objects3d.py:22-26 | the ray and the primitive are kept, and both lists start empty |
| HitResults.RayHitResult.AppendIntersection | objects3d.py:41-44 | appends the distance and the ray's point at it, keeping the lists parallel |
| HitResults.RayHitResult.KeepOnly | raytracer.py:244-245 | cuts both lists down to the chosen entry, in place |
| HitResults.RayHitResult.GetNormal | objects3d.py:28-39 | the primitive's normal at the indexed point, moved back along the ray for a box |
| HitResults.AppendAll | objects3d.py:256-257 | appends every distance in order |
| HitResults.SphereRayHit | objects3d.py:101-121 | `None` exactly when the specification gives none; otherwise a fresh result recording exactly its distances |
| HitResults.PlaneRayHit | objects3d.py:161-173 | `None` exactly when the specification gives none; otherwise a fresh result recording the one distance |
| HitResults.FaceBoundsCheck | objects3d.py:239-248 | in bounds exactly when the point lies within the box on both other axes |
| HitResults.FaceRayHit | objects3d.py:234-250 | one face: its plane distance exactly when the plane is hit within the face |
| HitResults.BoxRayHit | objects3d.py:231-258 | `None` exactly when no face is hit within bounds; otherwise a fresh result recording the in-face distances in face order |
| HitResults.KeepSideRoot | objects3d.py:323-332 | appends the root exactly when it is kept, and reports whether it was |
| HitResults.KeepCapHit | objects3d.py:335-348 | appends the cap distance exactly when it is kept, and reports whether it was |
| HitResults.CylinderRayHit | objects3d.py:299-353 | `None` exactly when the specification gives none; otherwise a fresh result recording sides, then top, then bottom |
| HitResults.RayHit | objects3d.py:101-353 | dispatches to the primitive's `rayHit`, with the same guarantee |
| Visibility.Collected | raytracer.py:209-221 | the collected results belong to scene objects and carry exactly their `rayHit` distances |
| Visibility.CollectedComplete | raytracer.py:212-221 | every object with a result is collected |
| Visibility.CollectedStep | raytracer.py:212-221 | one more object appends its result, if it has one |
| Visibility.Scan | raytracer.py:236-240 | the scan stays on a valid candidate |
| Visibility.ScanSelects | raytracer.py:236-240 | the scan's pick is no farther than any remaining candidate, and it is the incumbent or a strictly nearer candidate |
| Visibility.Incumbent | raytracer.py:232-234 | the first incumbent is a valid candidate |
| Visibility.Nearest | raytracer.py:232-240 | the winner is a smallest distance; it is the incumbent exactly when the incumbent is smallest; otherwise it is strictly nearer than every earlier candidate |
| Visibility.Cast | raytracer.py:199-247 | no hit exactly when nothing is selectable; a hit is a non-negative distance of a scene object's own `rayHit` |
| Visibility.CastIsClosest | raytracer.py:232-247 | the reported hit is no farther than any distance of any object |
| Visibility.CastIsNearest | raytracer.py:232-247 | the reported hit is the `Nearest` candidate |
| Visibility.SphereBehindHidesPlane | raytracer.py:225-226 | a sphere behind the origin, listed last, hides a plane the ray crosses |
| Visibility.Blocks | raytracer.py:216-219 | an object blocks only through a distance at or ahead of the origin whose square is within the light's |
| Visibility.Shadowed | raytracer.py:212-219 | a shadow ray is blocked exactly when some scene object blocks it |
| Visibility.FirstBlocker | raytracer.py:212-219 | the shadow cast stops at the first object with a distance within the light, and finds none exactly when no object blocks |
| Visibility.FirstBlockerAt | raytracer.py:212-219 | a blocking object with none before it is the first blocker |
| Visibility.ShadowedMonotone | raytracer.py:216-219 | moving the light farther away can only add blockers |
| Shading.OffSurface | raytracer.py:272 | the ray leaves from 0.001 times the normal away from the hit point |
| Shading.ShadowRay | raytracer.py:269-272 | leaves from 0.001 along the normal off the hit point, with a unit direction unless the light sits on the point |
| Shading.Phong | raytracer.py:283-299 | per channel: the diffuse product times `L . N` when `L . N > 0`, else nothing, plus the specular product times `(R . V) ** hardness` when `R . V > 0`, else nothing |
| Shading.Portion | raytracer.py:283-297 | one light's portion is `Phong` at `L . N` and at `R . V` for the mirrored direction `R = 2 (L . N) N - L` |
| Shading.SpecularStrength | raytracer.py:290-293 | `R . V` for `R = 2 (L . N) N - L` is `2 (L . N)(N . V) - L . V` |
| Shading.Contribution | raytracer.py:268-299 | a light adds nothing exactly when its shadow ray is blocked or its intensity is falsy; otherwise its intensity is in (0, 1] and it adds its portion times the intensity |
| Shading.ContributionTerms | raytracer.py:283-299 | a contributing light adds its diffuse and specular terms (`Phong` at `L . N` and `R . V`, written out) times its intensity |
| Shading.Lit | raytracer.py:262-299 | lights that contribute nothing leave the colour at the ambient term |
| Shading.LitAppend | raytracer.py:268-299 | one more light adds its contribution, if it has one, to the colour so far |
| Shading.LitPrefix | raytracer.py:268-299 | the lights up to index `k` give the colour of those before it plus light `k`'s contribution, if any |
| Shading.LocalColor | raytracer.py:250-301 | with no lights, the colour is the material's ambient times the scene's |
| Shading.ContributionNonNeg | raytracer.py:283-299 | with non-negative colours, every light's contribution is non-negative |
| Shading.LitAboveAmbient | raytracer.py:262-299 | with non-negative colours, lights only add: the colour is non-negative and at least the ambient term on every channel |
| Shading.Bounce | raytracer.py:318-326 | the reflected ray hits a scene object or nothing |
| Shading.Reflected | raytracer.py:318-326 | the reflected ray leaves from 0.001 along the normal off the hit point, with a unit direction unless the mirrored direction is zero |
| Shading.Blend | raytracer.py:324-327 | each channel is the average of the old colour and the reflected one |
| Shading.ToRgb | raytracer.py:334 | each channel is 255 times the colour's, truncated toward zero |
| Shading.Clamp | raytracer.py:329-332 | each channel is at most 1, at most the input, and unchanged below 1 |
| Shading.Shade | raytracer.py:304-337 | a top-level result is a pixel and a deeper one a colour; a miss returns the background tuple at the top depth and a zero vector below it, and leaves the field alone |
| Shading.Finish | raytracer.py:324-337 | a result exactly when the recursive call returned; a pixel at the top, the local colour below |
| Shading.ShadeHit | raytracer.py:315-337 | one level of the recursion on a hit |
| Shading.ShadeIgnoresFinal | raytracer.py:315-327 | the value returned does not depend on the field's value on entry |
| Shading.DepthBelowTopIgnored | raytracer.py:304-337 | below the top depth, the depth number makes no difference |
| Shading.ShadeFuelMonotone | raytracer.py:304-337 | a larger recursion budget never changes a result that was reached |
| Shading.TopLevelBlend | raytracer.py:315-334 | a pixel is half the local colour plus half the first bounce's local colour, clamped and truncated |
| Shading.PixelInRange | raytracer.py:329-334 | every channel of a pixel is at most 255, and at least 0 for non-negative colours |
| Engine.CameraBasis | raytracer.py:88-91 | each of the three axes has unit length or is zero |
| Engine.UnitOrZero | math3d.py:281-295 | a normalized copy has unit length or is zero |
| Engine.BasisOrthogonal | raytracer.py:88-91 | the camera axes are pairwise orthogonal, and forward is unit unless the camera sits on its centre of interest |
| Engine.ViewPlane | raytracer.py:93-100 | the view plane is twice its halves, as wide as the aspect ratio makes it, and pixels divide it evenly |
| Engine.Offsets | raytracer.py:126-139 | each current value plus its offset is the destination |
| Engine.Stepped | raytracer.py:152-156 | each value moves by exactly its offset times the eased parameter |
| Engine.StepReaches | raytracer.py:126-139 | a full step of the recorded offsets reaches the destination |
| Engine.StepZero | raytracer.py:152-156 | a zero step leaves the camera unchanged |
| Engine.StepsCompose | raytracer.py:152-156 | two steps compose into one step of the summed amount |
| Engine.TValues | raytracer.py:120-122 | `n` parameters (none for `n <= 0`), the `k`-th of them times `n` being `k + 1` |
| Engine.TValuesShape | raytracer.py:120-122 | `n` parameters, strictly increasing in (0, 1] and ending at exactly 1 (none for `n <= 0`) |
| Engine.Ease | raytracer.py:148-149 | the easing fixes 0 and 1 and maps (0, 1) into (0, 1) |
| Engine.EaseTotalAtLeastFirst | raytracer.py:152-156 | the summed easing is non-negative and at least its first term |
| Engine.TweenOvershoots | raytracer.py:142-165 | the easings of `n >= 2` frames sum to more than 1 |
| Engine.TweenedIsOneStep | raytracer.py:152-156 | a run of frames is one step by the summed easings |
| Engine.TweenPassesDestination | raytracer.py:142-165 | a complete tween toward a larger field of view ends beyond it |
| Engine.PixelPos | raytracer.py:192-196 | position (0, 0) maps to the view origin |
| Engine.Reach | raytracer.py:348-352 | counts the leading coloured pixels of a row: all before it are coloured, the one at it is not |
| Engine.SetAt | raytracer.py:352 | writes the colour at the position when it is on the surface, and changes nothing else |
| Engine.MirrorsExtend | raytracer.py:221 | appending a result keeps the result list in step with the collected values |
| Engine.CollectOne | raytracer.py:212-221 | one pass of the collecting loop keeps the list in step, appending at most one fresh result |
| Engine.AllResults | raytracer.py:209-221 | the result list holds exactly the collected values, as fresh objects |
| Engine.FirstBlockingResult | raytracer.py:212-219 | returns the first blocker's untouched result, or `None` exactly when nothing blocks |
| Engine.AnyWithinLight | raytracer.py:217-218 | true exactly when some distance's square lies within the light's |
| Engine.SelectNearest | raytracer.py:232-240 | the selection loop ends on the `Nearest` candidate |
| Engine.Raytracer.constructor | raytracer.py:7-67 | empty scene, default camera and axes, a view plane the size of the surface with ratios 1, zero final light, and a running tween with no frames |
| Engine.NewDefaultRaytracer | raytracer.py:7 | with the default arguments, the scene ambient is white `(1, 1, 1)` and the background `(50, 50, 50)`, in an otherwise fresh ray tracer |
| Engine.Raytracer.SetCamera | raytracer.py:70-104 | records position, centre of interest, field of view and near distance, derives the axes, and sets the view plane to match |
| Engine.Raytracer.CalculatePixelPos | raytracer.py:184-196 | position (0, 0) maps to the view origin |
| Engine.Raytracer.SetCameraTweenDest | raytracer.py:107-139 | marks tweening with the `n` parameters; an offset is re-recorded exactly for each truthy destination |
| Engine.Raytracer.UpdateTween | raytracer.py:142-165 | when not tweening, nothing changes; with no frame left, IndexError and nothing changes; otherwise one eased step, the camera re-derived, the frame advanced, and tweening while frames remain |
| Engine.Raytracer.GetColorOfHit | raytracer.py:250-301 | `None` for no hit; otherwise the local colour of the hit: the ambient term plus, light by light, its `Contribution` |
| Engine.Raytracer.LightPortion | raytracer.py:269-299 | one light's `Contribution`, including its shadow cast; when it contributes, its diffuse and specular terms at `L . N` and `R . V` times its intensity |
| Engine.Raytracer.GetColorOfHitRecursive | raytracer.py:304-337 | the value returned and the field's new value are those of `Shade` |
| Engine.Raytracer.ShadeHitInPlace | raytracer.py:315-337 | on a hit, the same as `Shade` |
| Engine.Raytracer.EnterHit | raytracer.py:315-316 | at the top depth, the field becomes the local colour; otherwise it is unchanged |
| Engine.Raytracer.ReflectedHit | raytracer.py:318-326 | the reflected cast finds the hit `Bounce` specifies |
| Engine.Raytracer.FinishHit | raytracer.py:324-337 | the blend, clamp and return, as `Finish` |
| Engine.Raytracer.ClampFinalLight | raytracer.py:329-332 | the field is clamped to at most 1 on each channel |
| Engine.Raytracer.RenderColumn | raytracer.py:348-350 | the colour of column `x` of the row |
| Engine.Raytracer.RenderPixel | raytracer.py:349-350 | the pixel's colour is the top-level shade of its nearest hit, whatever the field held |
| Engine.Raytracer.CastPixel | raytracer.py:349-350 | the pixel's ray from the camera finds the `Cast` hit |
| Engine.Raytracer.RenderOneLine | raytracer.py:340-352 | the row's pixels up to the first unfinished one are written with their colours and nothing else on the surface changes; it succeeds exactly when the whole row was written |
| Engine.Raytracer.RayCast | raytracer.py:199-247 | shadow mode returns the first blocker's result or `None`; otherwise `None` exactly when `Cast` finds no hit, else a result cut down to the nearest hit |
| Engine.Raytracer.NearestResult | raytracer.py:225-247 | the tail of `rayCast`: `None` when nothing is selectable, else the winning result cut down to its nearest distance |
| Engine.PixelPosAffine | raytracer.py:192-196 | stepping the pixel moves the point by multiples of the per-pixel camera axes |
| Engine.ViewCentre | raytracer.py:93-104 | after `setCamera`, the centre of the surface maps to the point `near` straight ahead of the camera |

## Left out

- `pygameRender` of every class, `Material.getPygameColor`, `Ray.pygameRender` and
  `VectorN.__str__`: they only draw or format.
- `VectorN.__len__` and `__getitem__` are sequence length and indexing; `iTuple` appears
  only as `Trunc` of each channel in `ToRgb`.
- `main.py` and its threading: the scene set-up and the event loop that call the engine
  are not part of this model.
- `rotateAboutYAxis` (`raytracer.py:168-181`): it calls `cos` and `sin` and then
  `setCamera`, which is modelled.
- Floating point: floats are modelled as exact reals, so rounding, overflow, `inf` and
  `nan` are not modelled. An exact zero test such as `den == 0.0` keeps its meaning.
- `math.sqrt`, `** 0.5` and `math.tan(math.radians(x))` are parameters; only the
  defining properties of the square root are assumed of them.
- Aliasing of `VectorN` objects: outside `Math3D.VectorN`, vectors are values. The model
  does not capture that the `+=` lines of `updateTween` rebind rather than mutate, nor
  that the box keeps the corner objects it copied.
- Dynamic types: operands are a `Value` datatype (vector, number, other). Python's `int`
  and `float` are one real number, and the hardness is an `int` exponent.
- Shading.Shade: the interpreter's recursion limit is a fuel bound, and running out is
  `None`.
- Engine.Raytracer.GetColorOfHitRecursive: like `Shade`, it returns `None` when the
  fuel runs out instead of raising `RecursionError`.
- Engine.Raytracer.RenderOneLine: stops at the first pixel whose recursion runs out
  (where the interpreter would raise). It does not state the value left in
  `mFinalLightComponent`.
- pygame's `set_at` rejecting an invalid colour is not modelled. Every channel of a pixel
  is proved at most 255, and at least 0 for non-negative colours.
- Engine.Raytracer.SetCameraTweenDest: a destination vector is always truthy (a
  `VectorN` of dimension 3), so `Some` stands for "given".
- The five camera values, the three axes and the view-plane fields are grouped into the
  `CameraValues`, `Basis` and `View` datatypes.
- The reflected direction is the `Shading.Reflected` function rather than the step-by-step
  vector lines.
- The ghost arguments `scene` and `h` of the shading methods only link them to their
  specification; nothing at run time depends on them.
- Engine.Raytracer.RayCast: writes its loop over the objects once per mode. The mode is
  fixed for the whole loop, so this is the same loop.
- The loop bodies of `rayCast`, `AABB.rayHit` and `getColorOfHit` are their own methods
  (`CollectOne`, `FaceRayHit`, `LightPortion`).
- Appending primitives and lights to `mObjects` and `mLights` is done by the caller; the
  model reads them as fields.
- Primitives.BoxRecordsEveryHit: a ray parallel to a face's plane records nothing for
  that face even when it runs inside it, because `Plane.rayHit` returns None for a zero
  denominator; the lemma requires a direction that crosses the face.
- Primitives.WellFormed: requires a non-zero radius of spheres and cylinders, and every
  scene the engine renders is well formed. A zero-radius sphere is in fact never hit
  (`objects3d.py:105` finds no root), and a zero-radius cylinder fails with
  `ZeroDivisionError` (`objects3d.py:297`) only when a ray meets it exactly on its axis;
  the model does not cover either scene.
- Engine.Raytracer.constructor: requires a surface at least one pixel wide and high, so
  the `ZeroDivisionError` of the aspect ratio and pixel sizes (`raytracer.py:24`, `50-51`)
  for an empty surface is not modelled.
- Shading.Shade: requires a depth of at most 5 (`TopDepth`). A larger first depth makes
  `.5 * tuple` raise `TypeError` at `raytracer.py:324-325`; the engine itself only ever
  starts at 5, and that failure is not modelled.
- Engine.Raytracer.GetColorOfHitRecursive: requires a depth of at most 5, like `Shade`;
  the `TypeError` a larger depth raises is not modelled.
- Math3D.NewVector: elements are already reals, so the `ValueError` or `TypeError` that
  `float()` raises for an element such as `"a"` or `None` (`math3d.py:29`) is not
  modelled, and a dimension is a `nat`, so `VectorN(-2)`, which gives empty data with
  `mDim == -2` (`math3d.py:20-22`), is not modelled either.
- Primitives.FaceHit: states what a recorded face distance satisfies; that every crossing
  of a face within its bounds is recorded is `Primitives.BoxRecordsEveryHit`.

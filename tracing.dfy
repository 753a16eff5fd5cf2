/**
 * The control skeleton of the per-pixel ray tracer: nearest-hit selection
 * over all scene objects, the shadow test against every other object, and
 * the bounded bounce loop that accumulates weighted local colours.
 *
 * Intersection distances, vector normalisation and the local shading term
 * are floating-point numerics; they enter as the functions of an `Optics`
 * value and are never computed here. A distance is either infinite (no
 * intersection) or a finite real.
 */
module Tracing {
  import opened Wrappers
  import opened Scene

  datatype Dist = Inf | Fin(t: real)

  /** numpy's `a < b` on distances, with `Inf` standing for `np.inf`. */
  predicate Closer(a: Dist, b: Dist) {
    match a
    case Inf => false
    case Fin(x) => b.Inf? || x < b.t
  }

  datatype Ray = Ray(origin: Vec3, direction: Vec3)

  /**
   * The numerical collaborators: `intersect(O, D, obj)`, `normalize`, and the
   * local Lambert plus Blinn-Phong colour of an object at a hit point with
   * a given normal (which also reads the checkerboard colour of planes and
   * the scene's light, camera and default coefficients).
   */
  datatype Optics = Optics(
    intersect: (SceneObject, Ray) -> Dist,
    normalize: Vec3 -> Vec3,
    shade: (SceneObject, Vec3, Vec3) -> Color)

  /** Offset along the normal that keeps a secondary ray off its own surface. */
  const Bias: real := 0.0001

  /** `intersect(rayO, rayD, obj)` for object `j` of the scene. */
  function DistanceTo(optics: Optics, objects: seq<SceneObject>, ray: Ray, j: nat): Dist
    requires j < |objects|
  {
    optics.intersect(objects[j], ray)
  }

  /**
   * Among the first `n` objects, object `i` is hit first: at a finite
   * distance, no object strictly closer, every object before it strictly
   * farther.
   */
  predicate IsNearest(optics: Optics, objects: seq<SceneObject>, ray: Ray, n: nat, i: nat)
    requires n <= |objects|
  {
    i < n && DistanceTo(optics, objects, ray, i).Fin?
    && (forall j :: 0 <= j < n ==> !Closer(DistanceTo(optics, objects, ray, j), DistanceTo(optics, objects, ray, i)))
    && (forall j :: 0 <= j < i ==> Closer(DistanceTo(optics, objects, ray, i), DistanceTo(optics, objects, ray, j)))
  }

  /** At most one object is hit first. */
  lemma NearestUnique(optics: Optics, objects: seq<SceneObject>, ray: Ray, n: nat, i: nat, j: nat)
    requires n <= |objects|
    requires IsNearest(optics, objects, ray, n, i) && IsNearest(optics, objects, ray, n, j)
    ensures i == j
  {
  }

  /**
   * The loop `for i, obj in enumerate(scene_objects)` over the first `n`
   * objects: an object replaces the current choice only when it is strictly
   * closer than the current `t` (initially `np.inf`).
   */
  function Nearest(optics: Optics, objects: seq<SceneObject>, ray: Ray, n: nat): (r: Option<nat>)
    requires n <= |objects|
    ensures r.Some? ==> r.value < n && DistanceTo(optics, objects, ray, r.value).Fin?
  {
    if n == 0 then None
    else
      var r0 := Nearest(optics, objects, ray, n - 1);
      var t := if r0.Some? then DistanceTo(optics, objects, ray, r0.value) else Inf;
      if Closer(DistanceTo(optics, objects, ray, n - 1), t) then Some(n - 1) else r0
  }

  /**
   * The scan finds nothing exactly when every distance is infinite, and
   * otherwise finds the first of the objects at the smallest distance.
   */
  lemma {:induction false} NearestSpec(optics: Optics, objects: seq<SceneObject>, ray: Ray, n: nat)
    requires n <= |objects|
    ensures Nearest(optics, objects, ray, n).None? <==> forall j :: 0 <= j < n ==> DistanceTo(optics, objects, ray, j).Inf?
    ensures Nearest(optics, objects, ray, n).Some? ==> IsNearest(optics, objects, ray, n, Nearest(optics, objects, ray, n).value)
  {
    if n > 0 {
      NearestSpec(optics, objects, ray, n - 1);
    }
  }

  /**
   * `min(l)` of `l = [intersect(shadow ray, obj_sh) for k, obj_sh in
   * enumerate(scene_objects) if k != obj_idx]`, restricted to the first `n`
   * objects: the first of the smallest distances, or `None` when `l` is empty.
   */
  function OthersMin(optics: Optics, objects: seq<SceneObject>, ray: Ray, hit: nat, n: nat): Option<Dist>
    requires n <= |objects|
  {
    if n == 0 then None
    else
      var m0 := OthersMin(optics, objects, ray, hit, n - 1);
      if n - 1 == hit then m0
      else
        var x := DistanceTo(optics, objects, ray, n - 1);
        match m0
        case None => Some(x)
        case Some(m) => if Closer(x, m) then Some(x) else Some(m)
  }

  /** `min` of the other objects' distances is one of them, and none is strictly smaller. */
  lemma {:induction false} OthersMinSpec(optics: Optics, objects: seq<SceneObject>, ray: Ray, hit: nat, n: nat)
    requires n <= |objects|
    ensures OthersMin(optics, objects, ray, hit, n).None? <==> n == 0 || (n == 1 && hit == 0)
    ensures OthersMin(optics, objects, ray, hit, n).Some? ==>
      var m := OthersMin(optics, objects, ray, hit, n).value;
      (exists k :: 0 <= k < n && k != hit && DistanceTo(optics, objects, ray, k) == m)
      && (forall k :: 0 <= k < n && k != hit ==> !Closer(DistanceTo(optics, objects, ray, k), m))
  {
    if n > 0 {
      OthersMinSpec(optics, objects, ray, hit, n - 1);
      var m := OthersMin(optics, objects, ray, hit, n);
      if n - 1 != hit {
        var x := DistanceTo(optics, objects, ray, n - 1);
        if m.value == x {
          assert n - 1 != hit && DistanceTo(optics, objects, ray, n - 1) == m.value;
        }
      }
    }
  }

  /** `l and min(l) < np.inf`: some object other than the one hit lies on the shadow ray. */
  predicate Shadowed(optics: Optics, objects: seq<SceneObject>, shadowRay: Ray, hit: nat) {
    var l := OthersMin(optics, objects, shadowRay, hit, |objects|);
    l.Some? && Closer(l.value, Inf)
  }

  /**
   * A hit point is in shadow exactly when some OTHER object has a finite
   * distance along the shadow ray; the object hit is never tested.
   */
  lemma ShadowedIff(optics: Optics, objects: seq<SceneObject>, shadowRay: Ray, hit: nat)
    ensures Shadowed(optics, objects, shadowRay, hit)
        <==> exists k :: 0 <= k < |objects| && k != hit && DistanceTo(optics, objects, shadowRay, k).Fin?
  {
    OthersMinSpec(optics, objects, shadowRay, hit, |objects|);
  }

  /** `(obj, M, N, col_ray)`: the object hit, the hit point, its normal and its local colour. */
  datatype Hit = Hit(index: nat, obj: SceneObject, point: Vec3, normal: Vec3, local: Color)

  /** `get_normal`: the unit radius through the hit point of a sphere, the stored normal of a plane. */
  function Normal(optics: Optics, obj: SceneObject, m: Vec3): Vec3 {
    match obj.shape
    case Sphere(center, _, _) => optics.normalize(Sub(m, center))
    case Plane(_, normal, _, _) => normal
  }

  /** The ray from just above the hit point towards the light. */
  function ShadowRay(optics: Optics, scene: Scene, m: Vec3, n: Vec3): Ray {
    Ray(Add(m, Scale(Bias, n)), optics.normalize(Sub(scene.light, m)))
  }

  /** `trace_ray`: the nearest unshadowed hit of a ray, or `None` for a miss or a shadow. */
  function Trace(optics: Optics, scene: Scene, ray: Ray): Option<Hit> {
    var objects := scene.objects;
    match Nearest(optics, objects, ray, |objects|)
    case None => None
    case Some(i) =>
      var m := Add(ray.origin, Scale(DistanceTo(optics, objects, ray, i).t, ray.direction));
      var n := Normal(optics, objects[i], m);
      if Shadowed(optics, objects, ShadowRay(optics, scene, m, n), i) then None
      else Some(Hit(i, objects[i], m, n, optics.shade(objects[i], m, n)))
  }

  /** A ray that meets no object at a finite distance is a miss. */
  lemma TraceMiss(optics: Optics, scene: Scene, ray: Ray)
    requires forall j :: 0 <= j < |scene.objects| ==> DistanceTo(optics, scene.objects, ray, j).Inf?
    ensures Trace(optics, scene, ray).None?
  {
    NearestSpec(optics, scene.objects, ray, |scene.objects|);
  }

  /**
   * When object `i` is hit first, `trace_ray` reports it, with its hit point,
   * normal and local colour, exactly when no OTHER object has a finite
   * distance along the shadow ray from that point.
   */
  lemma TraceHit(optics: Optics, scene: Scene, ray: Ray, i: nat)
    requires IsNearest(optics, scene.objects, ray, |scene.objects|, i)
    ensures var m := Add(ray.origin, Scale(DistanceTo(optics, scene.objects, ray, i).t, ray.direction));
      var n := Normal(optics, scene.objects[i], m);
      var sray := ShadowRay(optics, scene, m, n);
      (Trace(optics, scene, ray).Some? <==>
         forall k :: 0 <= k < |scene.objects| && k != i ==> DistanceTo(optics, scene.objects, sray, k).Inf?)
      && (Trace(optics, scene, ray).Some? ==>
            Trace(optics, scene, ray).value == Hit(i, scene.objects[i], m, n, optics.shade(scene.objects[i], m, n)))
  {
    var objects := scene.objects;
    NearestSpec(optics, objects, ray, |objects|);
    NearestUnique(optics, objects, ray, |objects|, i, Nearest(optics, objects, ray, |objects|).value);
    var m := Add(ray.origin, Scale(DistanceTo(optics, objects, ray, i).t, ray.direction));
    var n := Normal(optics, objects[i], m);
    ShadowedIff(optics, objects, ShadowRay(optics, scene, m, n), i);
  }

  /** The implementation of `trace_ray`: the nearest-object loop, then the shadow test. */
  method TraceRay(optics: Optics, scene: Scene, ray: Ray) returns (r: Option<Hit>)
    ensures r == Trace(optics, scene, ray)
  {
    var objects := scene.objects;
    var t := Inf;
    var objIdx := 0;
    for i := 0 to |objects|
      invariant Nearest(optics, objects, ray, i) == if t.Inf? then None else Some(objIdx)
      invariant t.Fin? ==> objIdx < i && t == DistanceTo(optics, objects, ray, objIdx)
    {
      var tObj := optics.intersect(objects[i], ray);
      if Closer(tObj, t) {
        t, objIdx := tObj, i;
      }
    }
    if t == Inf {
      return None;
    }
    var obj := objects[objIdx];
    var m := Add(ray.origin, Scale(t.t, ray.direction));
    var n := Normal(optics, obj, m);
    var shadowRay := ShadowRay(optics, scene, m, n);
    var least: Option<Dist> := None;
    for k := 0 to |objects|
      invariant least == OthersMin(optics, objects, shadowRay, objIdx, k)
    {
      if k != objIdx {
        var x := optics.intersect(objects[k], shadowRay);
        if least.None? || Closer(x, least.value) {
          least := Some(x);
        }
      }
    }
    if least.Some? && Closer(least.value, Inf) {
      return None;
    }
    r := Some(Hit(objIdx, obj, m, n, optics.shade(obj, m, n)));
  }

  /** The reflected ray: from just above the hit point, mirrored about the normal. */
  function NextRay(optics: Optics, ray: Ray, hit: Hit): Ray {
    Ray(Add(hit.point, Scale(Bias, hit.normal)),
        optics.normalize(Sub(ray.direction, Scale(2.0 * Dot(ray.direction, hit.normal), hit.normal))))
  }

  /** One pass of the bounce loop: the ray traced and what it hit. */
  datatype Bounce = Bounce(ray: Ray, hit: Hit)

  /** The ray the bounce loop traces after the bounces `bs` starting from `ray`. */
  function RayAfter(optics: Optics, ray: Ray, bs: seq<Bounce>): Ray {
    if bs == [] then ray else NextRay(optics, bs[|bs| - 1].ray, bs[|bs| - 1].hit)
  }

  /**
   * The successful passes of the bounce loop with `fuel` passes left, for
   * any `tracer` standing for `trace_ray`: each traced ray is the reflection
   * of the previous one, and the loop stops either when the fuel runs out or
   * at the first ray the tracer rejects (the lemmas below state this).
   */
  function Walk(tracer: Ray -> Option<Hit>, optics: Optics, ray: Ray, fuel: nat): (bs: seq<Bounce>)
    ensures |bs| <= fuel
    decreases fuel
  {
    if fuel == 0 then []
    else match tracer(ray)
      case None => []
      case Some(h) => [Bounce(ray, h)] + Walk(tracer, optics, NextRay(optics, ray, h), fuel - 1)
  }

  /** Every pass records a ray that the tracer accepted, with the hit it returned. */
  lemma {:induction false} WalkHit(tracer: Ray -> Option<Hit>, optics: Optics, ray: Ray, fuel: nat, i: nat)
    requires i < |Walk(tracer, optics, ray, fuel)|
    ensures var bs := Walk(tracer, optics, ray, fuel);
      tracer(bs[i].ray) == Some(bs[i].hit) && (i == 0 ==> bs[i].ray == ray)
    decreases fuel
  {
    if i > 0 {
      var h := tracer(ray).value;
      WalkHit(tracer, optics, NextRay(optics, ray, h), fuel - 1, i - 1);
    }
  }

  /** Each traced ray after the first is the reflection of the one before it. */
  lemma {:induction false} WalkChain(tracer: Ray -> Option<Hit>, optics: Optics, ray: Ray, fuel: nat, i: nat)
    requires 0 < i < |Walk(tracer, optics, ray, fuel)|
    ensures var bs := Walk(tracer, optics, ray, fuel);
      bs[i].ray == NextRay(optics, bs[i - 1].ray, bs[i - 1].hit)
    decreases fuel
  {
    var h := tracer(ray).value;
    var next := NextRay(optics, ray, h);
    if i > 1 {
      WalkChain(tracer, optics, next, fuel - 1, i - 1);
    } else {
      WalkHit(tracer, optics, next, fuel - 1, 0);
    }
  }

  /** Fewer passes than the fuel means the loop stopped at a ray the tracer rejected. */
  lemma {:induction false} WalkStopsAtMiss(tracer: Ray -> Option<Hit>, optics: Optics, ray: Ray, fuel: nat)
    requires |Walk(tracer, optics, ray, fuel)| < fuel
    ensures tracer(RayAfter(optics, ray, Walk(tracer, optics, ray, fuel))).None?
    decreases fuel
  {
    var bs := Walk(tracer, optics, ray, fuel);
    if bs != [] {
      var h := tracer(ray).value;
      var next := NextRay(optics, ray, h);
      var rest := Walk(tracer, optics, next, fuel - 1);
      WalkStopsAtMiss(tracer, optics, next, fuel - 1);
      assert bs == [Bounce(ray, h)] + rest;
      assert RayAfter(optics, ray, bs) == RayAfter(optics, next, rest);
    }
  }

  /** A pass that hits is the next element of the walk; the rest is the walk of the reflected ray. */
  lemma WalkStep(tracer: Ray -> Option<Hit>, optics: Optics, ray: Ray, fuel: nat, h: Hit, all: seq<Bounce>, k: nat)
    requires fuel > 0 && tracer(ray) == Some(h)
    requires k <= |all| && Walk(tracer, optics, ray, fuel) == all[k..]
    ensures k < |all| && all[k] == Bounce(ray, h)
    ensures Walk(tracer, optics, NextRay(optics, ray, h), fuel - 1) == all[k + 1..]
  {
    assert all[k..][0] == all[k];
    assert all[k + 1..] == all[k..][1..];
  }

  /** `reflection` after the first `k` passes: the product of the hit objects' reflections. */
  function Weight(bs: seq<Bounce>, k: nat): real
    requires k <= |bs|
  {
    if k == 0 then 1.0 else Weight(bs, k - 1) * Reflection(bs[k - 1].hit.obj)
  }

  /** `col` after the first `k` passes: each local colour scaled by the weight before its pass. */
  function Total(bs: seq<Bounce>, k: nat): Color
    requires k <= |bs|
  {
    if k == 0 then Black else Add(Total(bs, k - 1), Scale(Weight(bs, k - 1), bs[k - 1].hit.local))
  }

  /** One more pass adds its weighted local colour and multiplies the weight by its reflection. */
  lemma PassStep(bs: seq<Bounce>, k: nat, col: Color, reflection: real, h: Hit)
    requires k < |bs| && bs[k].hit == h && col == Total(bs, k) && reflection == Weight(bs, k)
    ensures Add(col, Scale(reflection, h.local)) == Total(bs, k + 1)
    ensures reflection * Reflection(h.obj) == Weight(bs, k + 1)
  {
    assert Weight(bs, k + 1) == Weight(bs, k) * Reflection(bs[k].hit.obj);
    assert Total(bs, k + 1) == Add(Total(bs, k), Scale(Weight(bs, k), bs[k].hit.local));
  }

  /** `trace_ray` for a fixed scene, as a function of the ray. */
  function Tracer(optics: Optics, scene: Scene): Ray -> Option<Hit> {
    r => Trace(optics, scene, r)
  }

  /** The successful passes of the bounce loop of `main` for a primary ray. */
  function Bounces(optics: Optics, scene: Scene, primary: Ray): seq<Bounce> {
    Walk(Tracer(optics, scene), optics, primary, scene.depthMax)
  }

  /** The colour the bounce loop computes for a primary ray, before clipping. */
  function PixelColor(optics: Optics, scene: Scene, primary: Ray): Color {
    var bs := Bounces(optics, scene, primary);
    Total(bs, |bs|)
  }

  /**
   * The passes of the bounce loop are exactly the successful traces of
   * `trace_ray`: the first traces the primary ray, each later one the
   * reflection of the previous ray, and when fewer than `depth_max` passes
   * happen, the ray after the last one was rejected.
   */
  lemma BouncesAreTraces(optics: Optics, scene: Scene, primary: Ray)
    ensures var bs := Bounces(optics, scene, primary);
      |bs| <= scene.depthMax
      && (forall i :: 0 <= i < |bs| ==> Trace(optics, scene, bs[i].ray) == Some(bs[i].hit))
      && (|bs| > 0 ==> bs[0].ray == primary)
      && (forall i :: 0 < i < |bs| ==> bs[i].ray == NextRay(optics, bs[i - 1].ray, bs[i - 1].hit))
      && (|bs| < scene.depthMax ==> Trace(optics, scene, RayAfter(optics, primary, bs)).None?)
  {
    var tracer := Tracer(optics, scene);
    var bs := Bounces(optics, scene, primary);
    forall i | 0 <= i < |bs|
      ensures Trace(optics, scene, bs[i].ray) == Some(bs[i].hit) && (i == 0 ==> bs[i].ray == primary)
    {
      WalkHit(tracer, optics, primary, scene.depthMax, i);
    }
    forall i | 0 < i < |bs|
      ensures bs[i].ray == NextRay(optics, bs[i - 1].ray, bs[i - 1].hit)
    {
      WalkChain(tracer, optics, primary, scene.depthMax, i);
    }
    if |bs| < scene.depthMax {
      WalkStopsAtMiss(tracer, optics, primary, scene.depthMax);
    }
  }

  /**
   * The bounce loop of one pixel in `main`: at most `depth_max` passes, each
   * tracing the current ray, stopping at the first miss or shadow, otherwise
   * adding the weighted local colour and moving on to the reflected ray.
   */
  method ShadePixel(optics: Optics, scene: Scene, primary: Ray) returns (col: Color, depth: nat)
    ensures depth == |Bounces(optics, scene, primary)|
    ensures col == PixelColor(optics, scene, primary)
  {
    col, depth := BounceLoop(optics, scene, Tracer(optics, scene), primary);
  }

  /** The loop of `ShadePixel`, with `tracer` naming the function `TraceRay` computes. */
  method BounceLoop(optics: Optics, scene: Scene, ghost tracer: Ray -> Option<Hit>, primary: Ray)
    returns (col: Color, depth: nat)
    requires forall r {:trigger Trace(optics, scene, r)} :: tracer(r) == Trace(optics, scene, r)
    ensures depth == |Walk(tracer, optics, primary, scene.depthMax)|
    ensures var bs := Walk(tracer, optics, primary, scene.depthMax); col == Total(bs, |bs|)
  {
    ghost var all := Walk(tracer, optics, primary, scene.depthMax);
    col := Black;
    depth := 0;
    var ray := primary;
    var reflection := 1.0;
    while depth < scene.depthMax
      invariant depth <= |all| && depth <= scene.depthMax
      invariant Walk(tracer, optics, ray, scene.depthMax - depth) == all[depth..]
      invariant col == Total(all, depth) && reflection == Weight(all, depth)
    {
      var traced := TraceRay(optics, scene, ray);
      if traced.None? {
        break;
      }
      var h := traced.value;
      WalkStep(tracer, optics, ray, scene.depthMax - depth, h, all, depth);
      PassStep(all, depth, col, reflection, h);
      ray := NextRay(optics, ray, h);
      depth := depth + 1;
      col := Add(col, Scale(reflection, h.local));
      reflection := reflection * Reflection(h.obj);
    }
    assert all[depth..] == [];
  }

  /** `np.clip(col, 0, 1)` on one channel. */
  function ClipChannel(x: real): real {
    if x < 0.0 then 0.0 else if x > 1.0 then 1.0 else x
  }

  predicate InUnitCube(c: Color) {
    0.0 <= c.x <= 1.0 && 0.0 <= c.y <= 1.0 && 0.0 <= c.z <= 1.0
  }

  /** `np.clip(col, 0, 1)`: every channel lands in [0, 1], and a colour already there is kept. */
  function Clip(c: Color): (r: Color)
    ensures InUnitCube(r)
    ensures InUnitCube(c) ==> r == c
    ensures (c.x <= 0.0 ==> r.x == 0.0) && (c.x >= 1.0 ==> r.x == 1.0)
    ensures (c.y <= 0.0 ==> r.y == 0.0) && (c.y >= 1.0 ==> r.y == 1.0)
    ensures (c.z <= 0.0 ==> r.z == 0.0) && (c.z >= 1.0 ==> r.z == 1.0)
  {
    Vec3(ClipChannel(c.x), ClipChannel(c.y), ClipChannel(c.z))
  }

  /** When every object reflects a fraction in [0, 1], so does the running weight. */
  lemma {:induction false} WeightInUnit(bs: seq<Bounce>, k: nat)
    requires k <= |bs|
    requires forall i :: 0 <= i < |bs| ==> 0.0 <= Reflection(bs[i].hit.obj) <= 1.0
    ensures 0.0 <= Weight(bs, k) <= 1.0
  {
    if k > 0 {
      WeightInUnit(bs, k - 1);
      assert 0.0 <= Reflection(bs[k - 1].hit.obj) <= 1.0;
      ScaleInUnit(Weight(bs, k - 1), Reflection(bs[k - 1].hit.obj));
    }
  }

  /** A product of two fractions in [0, 1] stays in [0, 1]. */
  lemma ScaleInUnit(w: real, f: real)
    requires 0.0 <= w <= 1.0 && 0.0 <= f <= 1.0
    ensures 0.0 <= w * f <= 1.0
  {
    NonNegativeProduct(w, f);
    NonNegativeProduct(w, 1.0 - f);
    assert w * (1.0 - f) == w - w * f;
  }

  /** The product of two non-negative reals is non-negative. */
  lemma NonNegativeProduct(a: real, b: real)
    requires 0.0 <= a && 0.0 <= b
    ensures 0.0 <= a * b
  {
  }

  /** After the first hit of a non-reflective object, later bounces add nothing to the colour. */
  lemma {:induction false} NonReflectiveStopsContributing(bs: seq<Bounce>, k: nat)
    requires 1 <= k <= |bs|
    requires Reflection(bs[0].hit.obj) == 0.0
    ensures Weight(bs, k) == 0.0
    ensures Total(bs, k) == bs[0].hit.local
  {
    if k > 1 {
      NonReflectiveStopsContributing(bs, k - 1);
    }
  }
}

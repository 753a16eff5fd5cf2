/**
 * The scene description the controller publishes and every worker reads:
 * scene objects (spheres and planes with optional per-object material
 * coefficients), the light, the global material defaults and the bounce
 * limit. Geometry is carried as real 3-vectors; nothing here computes with it.
 */
module Scene {
  import opened Wrappers

  datatype Vec3 = Vec3(x: real, y: real, z: real)

  type Color = Vec3

  const Black: Color := Vec3(0.0, 0.0, 0.0)

  function Add(a: Vec3, b: Vec3): Vec3 {
    Vec3(a.x + b.x, a.y + b.y, a.z + b.z)
  }

  function Sub(a: Vec3, b: Vec3): Vec3 {
    Vec3(a.x - b.x, a.y - b.y, a.z - b.z)
  }

  function Scale(k: real, a: Vec3): Vec3 {
    Vec3(k * a.x, k * a.y, k * a.z)
  }

  function Dot(a: Vec3, b: Vec3): real {
    a.x * b.x + a.y * b.y + a.z * b.z
  }

  datatype Shape =
    | Sphere(center: Vec3, radius: real, color: Color)
    | Plane(point: Vec3, normal: Vec3, color0: Color, color1: Color)

  /**
   * One entry of `scene_objects`: its shape and the optional `diffuse_c`,
   * `specular_c` and `reflection` keys of the object's dictionary.
   */
  datatype SceneObject = SceneObject(shape: Shape, diffuse: Option<real>, specular: Option<real>, reflection: Option<real>)

  /** `obj.get('reflection', 1.)`: the weight the next bounce is scaled by. */
  function Reflection(obj: SceneObject): real {
    obj.reflection.GetOr(1.0)
  }

  /** `obj.get('diffuse_c', diffuse_c)`: the object's own coefficient or the scene default. */
  function Diffuse(obj: SceneObject, default: real): real {
    obj.diffuse.GetOr(default)
  }

  /** `obj.get('specular_c', specular_c)`. */
  function Specular(obj: SceneObject, default: real): real {
    obj.specular.GetOr(default)
  }

  datatype Scene = Scene(
    objects: seq<SceneObject>,
    light: Vec3,          // L
    lightColor: Color,    // color_light
    ambient: real,
    diffuse: real,        // diffuse_c
    specular: real,       // specular_c
    specularExponent: nat, // specular_k
    depthMax: nat,        // depth_max
    camera: Vec3,         // O
    cameraTarget: Vec3)   // Q

  /** A sphere reflects half of the next bounce and shades with the scene defaults. */
  function AddSphere(position: Vec3, radius: real, color: Color): (obj: SceneObject)
    ensures obj.shape == Sphere(position, radius, color)
    ensures Reflection(obj) == 0.5
    ensures forall d :: Diffuse(obj, d) == d && Specular(obj, d) == d
  {
    SceneObject(Sphere(position, radius, color), None, None, Some(0.5))
  }

  /** A plane overrides the defaults: diffuse 0.75, specular 0.5, reflection 0.25. */
  function AddPlane(position: Vec3, normal: Vec3, color0: Color, color1: Color): (obj: SceneObject)
    ensures obj.shape == Plane(position, normal, color0, color1)
    ensures Reflection(obj) == 0.25
    ensures forall d :: Diffuse(obj, d) == 0.75 && Specular(obj, d) == 0.5
  {
    SceneObject(Plane(position, normal, color0, color1), Some(0.75), Some(0.5), Some(0.25))
  }

  /** The fixed demonstration scene: three spheres above a checkered floor. */
  function CreateScene(): (s: Scene)
    ensures |s.objects| == 4 && s.depthMax == 5
    ensures forall i :: 0 <= i < 3 ==> s.objects[i].shape.Sphere? && s.objects[i].shape.radius == 0.6
    ensures s.objects[3].shape.Plane? && s.objects[3].shape.normal == Vec3(0.0, 1.0, 0.0)
    ensures forall o :: o in s.objects ==> 0.0 < Reflection(o) <= 0.5
  {
    Scene(
      [ AddSphere(Vec3(0.75, 0.1, 1.0), 0.6, Vec3(0.0, 0.0, 1.0)),
        AddSphere(Vec3(-0.75, 0.1, 2.25), 0.6, Vec3(0.5, 0.223, 0.5)),
        AddSphere(Vec3(-2.75, 0.1, 3.5), 0.6, Vec3(1.0, 0.572, 0.184)),
        AddPlane(Vec3(0.0, -0.5, 0.0), Vec3(0.0, 1.0, 0.0), Vec3(1.0, 1.0, 1.0), Vec3(0.0, 0.0, 0.0)) ],
      Vec3(5.0, 5.0, -10.0),
      Vec3(1.0, 1.0, 1.0),
      0.05, 1.0, 1.0, 50,
      5,
      Vec3(0.0, 0.35, -1.0),
      Vec3(0.0, 0.0, 0.0))
  }
}

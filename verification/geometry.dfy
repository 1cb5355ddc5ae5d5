/**
 * The geometry the drag controller consumes but does not compute. Ray casting,
 * plane intersection, world matrices and their inversion belong to the
 * rendering library; here they are the answers of a `Scene` oracle, fixed for
 * the duration of one input event.
 */
module Geometry {
  import opened Wrappers

  /** Identity of a scene object; the controller compares objects only by identity. */
  type ObjectId = nat

  /** A pointer position in normalised device coordinates. */
  datatype Ndc = Ndc(x: real, y: real)

  /** A point or a direction in world space (floating point modelled as exact reals). */
  datatype Vec3 = Vec3(x: real, y: real, z: real)

  /** A freshly constructed vector: the origin. */
  const Origin := Vec3(0.0, 0.0, 0.0)

  /** Component-wise difference, as `Vector3.sub`. */
  function Sub(a: Vec3, b: Vec3): (r: Vec3)
    ensures Add(r, b) == a
  {
    Vec3(a.x - b.x, a.y - b.y, a.z - b.z)
  }

  function Add(a: Vec3, b: Vec3): Vec3 {
    Vec3(a.x + b.x, a.y + b.y, a.z + b.z)
  }

  /**
   * A 4x4 transform. Only what the controller does with matrices is named:
   * the identity a fresh `Matrix4` holds, a world matrix read from the scene,
   * and the inverse the library computes.
   */
  datatype Matrix = Identity | Elements(e: seq<real>) | Inverse(original: Matrix)

  /** The point `v` carried through the transform `m` (`applyMatrix4`), left symbolic. */
  datatype Placement = Transformed(v: Vec3, m: Matrix)

  /**
   * The drag plane: the default plane a fresh `Plane` holds, or the plane with
   * the given normal through the given point (`setFromNormalAndCoplanarPoint`).
   */
  datatype Plane = DefaultPlane | FromNormalAndPoint(normal: Vec3, point: Vec3)

  /**
   * What the rendering library answers during one input event:
   * - `hits(candidates, p)`: the objects (candidates or their descendants) the
   *   ray through `p` meets, nearest first (`intersectObjects(candidates, true)`);
   * - `meetsPlane(p, plane)`: where the ray through `p` meets `plane`, if it does
   *   (`ray.intersectPlane`);
   * - `worldPosition(o)` and `worldMatrix(o)`: from `o.matrixWorld`;
   * - `parent(o)`: `o.parent`, if any;
   * - `viewDirection`: the camera's world direction.
   */
  datatype Scene = Scene(
    hits: (seq<ObjectId>, Ndc) -> seq<ObjectId>,
    meetsPlane: (Ndc, Plane) -> Option<Vec3>,
    worldPosition: ObjectId -> Vec3,
    worldMatrix: ObjectId -> Matrix,
    parent: ObjectId -> Option<ObjectId>,
    viewDirection: Vec3)

  /** Hit-test of a candidate list; a ray meets nothing when there are no candidates. */
  function HitTest(scene: Scene, candidates: seq<ObjectId>, at: Ndc): (r: seq<ObjectId>)
    ensures candidates == [] ==> r == []
  {
    if candidates == [] then [] else scene.hits(candidates, at)
  }
}

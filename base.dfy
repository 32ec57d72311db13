/** Values shared by both conversion directions: optional values, the
    errors the converters raise, and the small vector types of the
    ignition.math library. */
module Base {

  datatype Option<+T> = None | Some(value: T)

  /** The ways a conversion can fail. In the Python code each of these is a
      raised exception (RuntimeError, an out-of-range list index, the
      ValueError of a geom name already in use, or an exception from the pose
      resolver). */
  datatype ConvError =
    | UnsupportedShape(shapeType: Option<string>)   // MJCF type string not handled
    | UnsupportedGeometryType(kind: GeometryKind)   // SDFormat geometry with no handled shape
    | MeshesNotSupported                            // "Meshes are not yet supported"
    | MissingParameter                              // a size or fromto entry read past its end
    | DuplicateGeomName(name: string)               // body.add("geom", name=...) on a name in use
    | PoseUnresolved                                // the injected pose resolver failed

  /** sdf.Geometry.GeometryType. */
  datatype GeometryKind =
    | EmptyKind | BoxKind | CylinderKind | PlaneKind | SphereKind
    | MeshKind | HeightmapKind | CapsuleKind | EllipsoidKind | PolylineKind

  datatype Result<+T> = Ok(value: T) | Err(error: ConvError)

  datatype Vec3 = Vec3(x: real, y: real, z: real)
  datatype Vec2 = Vec2(x: real, y: real)
  datatype Quaternion = Quaternion(w: real, x: real, y: real, z: real)

  /** ignition.math Pose3d: a position and a rotation. */
  datatype Pose = Pose(pos: Vec3, rot: Quaternion)

  function Scale3(k: real, v: Vec3): Vec3 { Vec3(k * v.x, k * v.y, k * v.z) }
  function Add3(a: Vec3, b: Vec3): Vec3 { Vec3(a.x + b.x, a.y + b.y, a.z + b.z) }

  /** The squared Euclidean distance between two points. */
  function SquaredDistance(a: Vec3, b: Vec3): real
  {
    (a.x - b.x) * (a.x - b.x) + (a.y - b.y) * (a.y - b.y) + (a.z - b.z) * (a.z - b.z)
  }

  /** What Vector3d.distance promises: a non-negative number whose square is
      the squared distance. The converters receive the distance function as a
      parameter, since its square root lives in a foreign library. */
  ghost predicate IsEuclideanDistance(distance: (Vec3, Vec3) -> real)
  {
    forall a, b :: distance(a, b) >= 0.0 && distance(a, b) * distance(a, b) == SquaredDistance(a, b)
  }

  /** su.vec3d_to_list. */
  function Vec3ToList(v: Vec3): (r: seq<real>)
    ensures |r| == 3 && r[0] == v.x && r[1] == v.y && r[2] == v.z
  {
    [v.x, v.y, v.z]
  }

  /** su.list_to_vec3d: reads the first three entries of a list. */
  function ListToVec3(s: seq<real>): (r: Result<Vec3>)
    ensures r.Ok? <==> |s| >= 3
    ensures r.Ok? ==> Vec3ToList(r.value) == s[..3]
  {
    if |s| < 3 then Err(MissingParameter) else Ok(Vec3(s[0], s[1], s[2]))
  }

  /** Squaring is strictly increasing on the non-negative reals. */
  lemma SquareStrictlyIncreasing(x: real, y: real)
    requires 0.0 <= x < y
    ensures x * x < y * y
  {
    var xx, xy, yy := x * x, x * y, y * y;
    assert xx <= xy;
    assert xy < yy;
  }

  /** Two non-negative reals with the same square are equal, so a distance
      is determined by its square. */
  lemma SquareRootUnique(a: real, b: real)
    requires a >= 0.0 && b >= 0.0 && a * a == b * b
    ensures a == b
  {
    if a < b {
      SquareStrictlyIncreasing(a, b);
    } else if b < a {
      SquareStrictlyIncreasing(b, a);
    }
  }
}

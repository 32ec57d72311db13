/** SDFormat geometry values as the sdformat bindings expose them. A
    sdf.Geometry carries a type tag and one optional slot per shape; a slot
    reads as None until the matching set_*_shape call fills it, and setting
    one slot leaves the others as they were. */
module SdfTypes {
  import opened Base

  datatype Box = Box(size: Vec3)
  datatype Capsule = Capsule(radius: real, length: real)
  datatype Cylinder = Cylinder(radius: real, length: real)
  datatype Ellipsoid = Ellipsoid(radii: Vec3)
  datatype Sphere = Sphere(radius: real)
  datatype Plane = Plane(size: Vec2)
  datatype Mesh = Mesh(uri: string)

  datatype Geometry = Geometry(
    kind: GeometryKind,
    box: Option<Box>,
    capsule: Option<Capsule>,
    cylinder: Option<Cylinder>,
    ellipsoid: Option<Ellipsoid>,
    plane: Option<Plane>,
    sphere: Option<Sphere>,
    mesh: Option<Mesh>)

  /** A freshly constructed sdf.Geometry(): type EMPTY, no shape set. */
  const EmptyGeometry := Geometry(EmptyKind, None, None, None, None, None, None, None)

  /** The number of shape slots that are set. */
  function ShapeCount(g: Geometry): nat
  {
    (if g.box.Some? then 1 else 0) + (if g.capsule.Some? then 1 else 0)
    + (if g.cylinder.Some? then 1 else 0) + (if g.ellipsoid.Some? then 1 else 0)
    + (if g.plane.Some? then 1 else 0) + (if g.sphere.Some? then 1 else 0)
    + (if g.mesh.Some? then 1 else 0)
  }

  /** The type tag names the one shape that is set. */
  predicate TagMatchesShape(g: Geometry)
  {
    ShapeCount(g) == 1 &&
    match g.kind
    case BoxKind => g.box.Some?
    case CapsuleKind => g.capsule.Some?
    case CylinderKind => g.cylinder.Some?
    case EllipsoidKind => g.ellipsoid.Some?
    case PlaneKind => g.plane.Some?
    case SphereKind => g.sphere.Some?
    case MeshKind => g.mesh.Some?
    case _ => false
  }

  /** sdf.Visual and sdf.Collision with the fields the converters set. */
  datatype Visual = Visual(name: string, geometry: Geometry)

  /** The semantic pose of an SDFormat element: a raw pose and the name of
      the frame it is expressed in (resolved by an external frame graph). */
  datatype SemanticPose = SemanticPose(rawPose: Pose, relativeTo: string)

  datatype Collision = Collision(name: string, semanticPose: SemanticPose, geometry: Geometry)
}

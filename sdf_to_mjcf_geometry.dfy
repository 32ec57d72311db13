/** SDFormat collision/visual geometry to MJCF geom: the shape mapping, and
    the geom element it appends to an MJCF body. */
module SdfToMjcfGeometry {
  import opened Base
  import opened SdfTypes

  /** The MJCF geom group that marks collision geoms, and the one for
      visual geoms. */
  const CollisionGeomGroup: int := 3
  const VisualGeomGroup: int := 0

  /** The type attribute and size list of an MJCF geom. */
  datatype MjcfShape = MjcfShape(geomType: string, size: seq<real>)

  /** Any of the six shapes that have an MJCF counterpart is set. */
  predicate HasConvertibleShape(geo: Geometry)
  {
    geo.box.Some? || geo.capsule.Some? || geo.cylinder.Some?
    || geo.ellipsoid.Some? || geo.plane.Some? || geo.sphere.Some?
  }

  /** The MJCF type string for an SDFormat geometry type. */
  function MjcfTypeName(kind: GeometryKind): string
  {
    match kind
    case BoxKind => "box"
    case CapsuleKind => "capsule"
    case CylinderKind => "cylinder"
    case EllipsoidKind => "ellipsoid"
    case PlaneKind => "plane"
    case SphereKind => "sphere"
    case MeshKind => "mesh"
    case _ => ""
  }

  /** The shape dispatch of add_geometry: the first set slot in the order
      box, capsule, cylinder, ellipsoid, plane, sphere, mesh decides; a mesh
      and a geometry with none of these slots set raise. */
  function ShapeToMjcf(geo: Geometry): (r: Result<MjcfShape>)
    ensures r.Ok? <==> HasConvertibleShape(geo)
    ensures r.Err? && geo.mesh.Some? ==> r.error == MeshesNotSupported
    ensures r.Err? && geo.mesh.None? ==> r.error == UnsupportedGeometryType(geo.kind)
    ensures r.Ok? ==> r.value.geomType in {"box", "capsule", "cylinder", "ellipsoid", "plane", "sphere"}
    ensures r.Ok? && r.value.geomType in {"box", "ellipsoid"} ==> |r.value.size| == 3
    ensures r.Ok? && r.value.geomType in {"capsule", "cylinder"} ==> |r.value.size| == 2
    ensures r.Ok? && r.value.geomType == "sphere" ==> |r.value.size| == 1
    ensures r.Ok? && r.value.geomType == "plane" ==> |r.value.size| == 3 && r.value.size[2] == 0.0
  {
    if geo.box.Some? then
      Ok(MjcfShape("box", Vec3ToList(Scale3(1.0 / 2.0, geo.box.value.size))))
    else if geo.capsule.Some? then
      Ok(MjcfShape("capsule", [geo.capsule.value.radius, geo.capsule.value.length / 2.0]))
    else if geo.cylinder.Some? then
      Ok(MjcfShape("cylinder", [geo.cylinder.value.radius, geo.cylinder.value.length / 2.0]))
    else if geo.ellipsoid.Some? then
      Ok(MjcfShape("ellipsoid", Vec3ToList(geo.ellipsoid.value.radii)))
    else if geo.plane.Some? then
      Ok(MjcfShape("plane", [geo.plane.value.size.x / 2.0, geo.plane.value.size.y / 2.0, 0.0]))
    else if geo.sphere.Some? then
      Ok(MjcfShape("sphere", [geo.sphere.value.radius]))
    else if geo.mesh.Some? then
      Err(MeshesNotSupported)
    else
      Err(UnsupportedGeometryType(geo.kind))
  }

  /** For a geometry whose tag names its only shape, the MJCF type is the
      tag's name, and only a mesh fails. */
  lemma ShapeToMjcfFollowsTag(geo: Geometry)
    requires TagMatchesShape(geo)
    ensures ShapeToMjcf(geo).Ok? <==> geo.kind != MeshKind
    ensures ShapeToMjcf(geo).Ok? ==> ShapeToMjcf(geo).value.geomType == MjcfTypeName(geo.kind)
    ensures geo.kind == MeshKind ==> ShapeToMjcf(geo) == Err(MeshesNotSupported)
  {
  }

  /** The size rules of each shape. */
  lemma ShapeSizes(geo: Geometry)
    ensures geo.box.Some? ==>
      ShapeToMjcf(geo) == Ok(MjcfShape("box", [geo.box.value.size.x / 2.0, geo.box.value.size.y / 2.0, geo.box.value.size.z / 2.0]))
    ensures geo.box.None? && geo.capsule.Some? ==>
      ShapeToMjcf(geo) == Ok(MjcfShape("capsule", [geo.capsule.value.radius, geo.capsule.value.length / 2.0]))
    ensures geo.box.None? && geo.capsule.None? && geo.cylinder.Some? ==>
      ShapeToMjcf(geo) == Ok(MjcfShape("cylinder", [geo.cylinder.value.radius, geo.cylinder.value.length / 2.0]))
    ensures geo.box.None? && geo.capsule.None? && geo.cylinder.None? && geo.ellipsoid.Some? ==>
      ShapeToMjcf(geo) == Ok(MjcfShape("ellipsoid", Vec3ToList(geo.ellipsoid.value.radii)))
    ensures !(geo.box.Some? || geo.capsule.Some? || geo.cylinder.Some? || geo.ellipsoid.Some?) && geo.plane.Some? ==>
      ShapeToMjcf(geo) == Ok(MjcfShape("plane", [geo.plane.value.size.x / 2.0, geo.plane.value.size.y / 2.0, 0.0]))
    ensures !(geo.box.Some? || geo.capsule.Some? || geo.cylinder.Some? || geo.ellipsoid.Some? || geo.plane.Some?) && geo.sphere.Some? ==>
      ShapeToMjcf(geo) == Ok(MjcfShape("sphere", [geo.sphere.value.radius]))
  {
  }

  /** An MJCF geom element: the attributes add_geometry and add_collision
      set. A new element has no type, size or group. */
  class MjcfGeomElement {
    var name: string
    var pos: seq<real>
    var euler: seq<real>
    var geomType: Option<string>
    var size: Option<seq<real>>
    var group: Option<int>

    constructor (name: string, pos: seq<real>, euler: seq<real>)
      ensures this.name == name && this.pos == pos && this.euler == euler
      ensures geomType.None? && size.None? && group.None?
    {
      this.name, this.pos, this.euler := name, pos, euler;
      geomType, size, group := None, None, None;
    }
  }

  /** An MJCF body element with the geoms added to it, in order, and the
      geom names already in use in the MJCF model it belongs to (the
      model's namescope for geoms). */
  class MjcfBodyElement {
    var geoms: seq<MjcfGeomElement>
    var geomNames: set<string>

    predicate Valid()
      reads this, geoms
    {
      forall i :: 0 <= i < |geoms| ==> geoms[i].name in geomNames
    }

    /** A new body of a model whose geoms already use `namesInUse`. */
    constructor (namesInUse: set<string>)
      ensures geoms == [] && geomNames == namesInUse
      ensures Valid()
    {
      geoms, geomNames := [], namesInUse;
    }

    /** body.add("geom", name=..., pos=..., euler=...). A name already in
        use in the model raises and adds nothing; otherwise the new geom is
        appended and its name becomes taken. */
    method AddGeom(name: string, pos: seq<real>, euler: seq<real>) returns (r: Result<MjcfGeomElement>)
      requires Valid()
      modifies this
      ensures Valid()
      ensures name in old(geomNames) ==>
        r == Err(DuplicateGeomName(name)) && geoms == old(geoms) && geomNames == old(geomNames)
      ensures name !in old(geomNames) ==>
        && r.Ok? && fresh(r.value) && geoms == old(geoms) + [r.value]
        && geomNames == old(geomNames) + {name}
        && r.value.name == name && r.value.pos == pos && r.value.euler == euler
        && r.value.geomType.None? && r.value.size.None? && r.value.group.None?
    {
      if name in geomNames {
        return Err(DuplicateGeomName(name));
      }
      var g := new MjcfGeomElement(name, pos, euler);
      geoms, geomNames := geoms + [g], geomNames + {name};
      r := Ok(g);
    }
  }

  /** add_geometry. A missing geometry adds nothing, and a geom name already
      in use raises before anything is added. Otherwise the geom is
      appended first and then typed by ShapeToMjcf's rules, so when the
      dispatch raises, the body already holds the new, untyped geom. The
      pose is already resolved; quatToEuler stands for
      su.quat_to_euler_list. */
  method AddGeometry(body: MjcfBodyElement, name: string, pose: Pose, sdfGeom: Option<Geometry>,
                     quatToEuler: Quaternion -> seq<real>)
      returns (r: Result<Option<MjcfGeomElement>>)
    requires body.Valid()
    modifies body
    ensures body.Valid()
    ensures sdfGeom.None? ==>
      r == Ok(None) && body.geoms == old(body.geoms) && body.geomNames == old(body.geomNames)
    ensures sdfGeom.Some? && name in old(body.geomNames) ==>
      r == Err(DuplicateGeomName(name)) && body.geoms == old(body.geoms) && body.geomNames == old(body.geomNames)
    ensures sdfGeom.Some? && name !in old(body.geomNames) ==>
      && |body.geoms| == |old(body.geoms)| + 1
      && body.geoms[..|old(body.geoms)|] == old(body.geoms)
      && body.geomNames == old(body.geomNames) + {name}
      && var g := body.geoms[|old(body.geoms)|];
      && fresh(g)
      && g.name == name && g.pos == Vec3ToList(pose.pos) && g.euler == quatToEuler(pose.rot)
      && g.group.None?
      && match ShapeToMjcf(sdfGeom.value)
         case Ok(s) => r == Ok(Some(g)) && g.geomType == Some(s.geomType) && g.size == Some(s.size)
         case Err(e) => r == Err(e) && g.geomType.None? && g.size.None?
  {
    if sdfGeom.None? {
      return Ok(None);
    }
    var geo := sdfGeom.value;
    var added := body.AddGeom(name, Vec3ToList(pose.pos), quatToEuler(pose.rot));
    if added.Err? {
      return Err(added.error);
    }
    var g := added.value;
    if geo.box.Some? {
      g.geomType := Some("box");
      g.size := Some(Vec3ToList(Scale3(1.0 / 2.0, geo.box.value.size)));
    } else if geo.capsule.Some? {
      g.geomType := Some("capsule");
      g.size := Some([geo.capsule.value.radius, geo.capsule.value.length / 2.0]);
    } else if geo.cylinder.Some? {
      g.geomType := Some("cylinder");
      g.size := Some([geo.cylinder.value.radius, geo.cylinder.value.length / 2.0]);
    } else if geo.ellipsoid.Some? {
      g.geomType := Some("ellipsoid");
      g.size := Some(Vec3ToList(geo.ellipsoid.value.radii));
    } else if geo.plane.Some? {
      g.geomType := Some("plane");
      g.size := Some([geo.plane.value.size.x / 2.0, geo.plane.value.size.y / 2.0, 0.0]);
    } else if geo.sphere.Some? {
      g.geomType := Some("sphere");
      g.size := Some([geo.sphere.value.radius]);
    } else if geo.mesh.Some? {
      return Err(MeshesNotSupported);
    } else {
      return Err(UnsupportedGeometryType(geo.kind));
    }
    r := Ok(Some(g));
  }

  /** add_collision: resolve the collision's semantic pose with the injected
      resolver, add its geometry under the collision's name, and put the new
      geom in the collision group. A pose that does not resolve, or a name
      already in use, raises before anything is added; a shape failure
      propagates after the geom was added, leaving its group unset. */
  method AddCollision(body: MjcfBodyElement, col: Collision,
                      resolve: SemanticPose -> Option<Pose>, quatToEuler: Quaternion -> seq<real>)
      returns (r: Result<MjcfGeomElement>)
    requires body.Valid()
    modifies body
    ensures body.Valid()
    ensures resolve(col.semanticPose).None? ==>
      r == Err(PoseUnresolved) && body.geoms == old(body.geoms) && body.geomNames == old(body.geomNames)
    ensures resolve(col.semanticPose).Some? && col.name in old(body.geomNames) ==>
      r == Err(DuplicateGeomName(col.name)) && body.geoms == old(body.geoms) && body.geomNames == old(body.geomNames)
    ensures resolve(col.semanticPose).Some? && col.name !in old(body.geomNames) ==>
      && |body.geoms| == |old(body.geoms)| + 1
      && body.geoms[..|old(body.geoms)|] == old(body.geoms)
      && body.geomNames == old(body.geomNames) + {col.name}
      && var g, pose := body.geoms[|old(body.geoms)|], resolve(col.semanticPose).value;
      && fresh(g)
      && g.name == col.name && g.pos == Vec3ToList(pose.pos) && g.euler == quatToEuler(pose.rot)
      && match ShapeToMjcf(col.geometry)
         case Ok(s) =>
           r == Ok(g) && g.group == Some(CollisionGeomGroup)
           && g.geomType == Some(s.geomType) && g.size == Some(s.size)
         case Err(e) => r == Err(e) && g.group.None? && g.geomType.None? && g.size.None?
  {
    var pose := resolve(col.semanticPose);
    if pose.None? {
      return Err(PoseUnresolved);
    }
    var added := AddGeometry(body, col.name, pose.value, Some(col.geometry), quatToEuler);
    match added {
      case Err(e) =>
        r := Err(e);
      case Ok(geom) =>
        var g := geom.value;
        g.group := Some(CollisionGeomGroup);
        r := Ok(g);
    }
  }
}

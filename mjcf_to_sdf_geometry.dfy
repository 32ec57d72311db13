/** MJCF geom to SDFormat geometry, and the naming of the SDFormat visuals
    and collisions built from MJCF geoms. */
module MjcfToSdfGeometry {
  import opened Base
  import opened SdfTypes
  import Decimal

  /** The attributes of an MJCF geom that the converter reads. An attribute
      the element leaves unset reads as None; an unset size reads as []. */
  datatype MjcfGeom = MjcfGeom(
    name: Option<string>,
    geomType: Option<string>,
    size: seq<real>,
    fromto: Option<seq<real>>)

  const SupportedTypes: set<string> := {"box", "capsule", "cylinder", "ellipsoid", "sphere", "plane"}

  /** The first endpoint of a fromto list, fromto[0..2]. */
  function FromPoint(f: seq<real>): Vec3
    requires |f| >= 6
  {
    Vec3(f[0], f[1], f[2])
  }

  /** The second endpoint of a fromto list, fromto[3..5]. */
  function ToPoint(f: seq<real>): Vec3
    requires |f| >= 6
  {
    Vec3(f[3], f[4], f[5])
  }

  /** Whether every size and fromto entry that the conversion of g's type
      reads exists (a missing one raises an index error in the source). */
  predicate ParametersPresent(g: MjcfGeom)
  {
    match g.geomType
    case Some("box") => |g.size| >= 3
    case Some("ellipsoid") => |g.size| >= 3
    case Some("sphere") => |g.size| >= 1
    case Some("plane") => |g.size| >= 2
    case Some("capsule") => SegmentParametersPresent(g)
    case Some("cylinder") => SegmentParametersPresent(g)
    case _ => true
  }

  predicate SegmentParametersPresent(g: MjcfGeom)
  {
    |g.size| >= 1 && if g.fromto.None? then |g.size| >= 2 else |g.fromto.value| >= 6
  }

  /** The length of a capsule or cylinder: twice size[1] without fromto,
      otherwise the distance between the two fromto endpoints. */
  function SegmentLength(g: MjcfGeom, distance: (Vec3, Vec3) -> real): (r: Result<real>)
    ensures r.Ok? <==> (if g.fromto.None? then |g.size| >= 2 else |g.fromto.value| >= 6)
  {
    match g.fromto
    case None => if |g.size| < 2 then Err(MissingParameter) else Ok(g.size[1] * 2.0)
    case Some(f) => if |f| < 6 then Err(MissingParameter) else Ok(distance(FromPoint(f), ToPoint(f)))
  }

  /** mjcf_geom_to_sdf: dispatch on the geom's type string. */
  function GeomToSdf(g: MjcfGeom, distance: (Vec3, Vec3) -> real): (r: Result<Geometry>)
    ensures r.Ok? <==> g.geomType.Some? && g.geomType.value in SupportedTypes && ParametersPresent(g)
    ensures r.Ok? ==> TagMatchesShape(r.value) && r.value.mesh.None?
    ensures g.geomType.None? || g.geomType.value !in SupportedTypes ==> r == Err(UnsupportedShape(g.geomType))
    ensures r.Err? && g.geomType.Some? && g.geomType.value in SupportedTypes ==> r == Err(MissingParameter)
  {
    match g.geomType
    case Some("box") =>
      (match ListToVec3(g.size)
       case Ok(v) => Ok(EmptyGeometry.(kind := BoxKind, box := Some(Box(Scale3(2.0, v)))))
       case Err(e) => Err(e))
    case Some("capsule") =>
      if |g.size| < 1 then Err(MissingParameter)
      else
        (match SegmentLength(g, distance)
         case Ok(l) => Ok(EmptyGeometry.(kind := CapsuleKind, capsule := Some(Capsule(g.size[0], l))))
         case Err(e) => Err(e))
    case Some("cylinder") =>
      if |g.size| < 1 then Err(MissingParameter)
      else
        (match SegmentLength(g, distance)
         case Ok(l) => Ok(EmptyGeometry.(kind := CylinderKind, cylinder := Some(Cylinder(g.size[0], l))))
         case Err(e) => Err(e))
    case Some("ellipsoid") =>
      (match ListToVec3(g.size)
       case Ok(v) => Ok(EmptyGeometry.(kind := EllipsoidKind, ellipsoid := Some(Ellipsoid(v))))
       case Err(e) => Err(e))
    case Some("sphere") =>
      if |g.size| < 1 then Err(MissingParameter)
      else Ok(EmptyGeometry.(kind := SphereKind, sphere := Some(Sphere(g.size[0]))))
    case Some("plane") =>
      if |g.size| < 2 then Err(MissingParameter)
      else Ok(EmptyGeometry.(kind := PlaneKind, plane := Some(Plane(Vec2(g.size[0] * 2.0, g.size[1] * 2.0)))))
    case _ => Err(UnsupportedShape(g.geomType))
  }

  /** A box's SDFormat size is twice its MJCF half-extents, component-wise. */
  lemma BoxSizeDoubled(g: MjcfGeom, distance: (Vec3, Vec3) -> real)
    requires g.geomType == Some("box") && |g.size| >= 3
    ensures GeomToSdf(g, distance).Ok?
    ensures GeomToSdf(g, distance).value.kind == BoxKind
    ensures GeomToSdf(g, distance).value.box == Some(Box(Vec3(2.0 * g.size[0], 2.0 * g.size[1], 2.0 * g.size[2])))
  {
  }

  /** A capsule or cylinder takes size[0] as its radius and SegmentLength as
      its length. */
  lemma SegmentShapeParameters(g: MjcfGeom, distance: (Vec3, Vec3) -> real)
    requires g.geomType == Some("capsule") || g.geomType == Some("cylinder")
    requires SegmentParametersPresent(g)
    ensures SegmentLength(g, distance).Ok? && GeomToSdf(g, distance).Ok?
    ensures var geo, l := GeomToSdf(g, distance).value, SegmentLength(g, distance).value;
      if g.geomType == Some("capsule")
      then geo.kind == CapsuleKind && geo.capsule == Some(Capsule(g.size[0], l))
      else geo.kind == CylinderKind && geo.cylinder == Some(Cylinder(g.size[0], l))
  {
  }

  /** Without fromto the length is twice the half-length size[1]. */
  lemma SegmentLengthWithoutFromto(g: MjcfGeom, distance: (Vec3, Vec3) -> real)
    requires g.fromto.None? && |g.size| >= 2
    ensures SegmentLength(g, distance) == Ok(2.0 * g.size[1])
  {
  }

  /** With fromto the length is the Euclidean distance between the endpoints:
      non-negative, and its square is the squared distance. */
  lemma SegmentLengthIsDistance(g: MjcfGeom, distance: (Vec3, Vec3) -> real)
    requires IsEuclideanDistance(distance)
    requires g.fromto.Some? && |g.fromto.value| >= 6
    ensures SegmentLength(g, distance).Ok?
    ensures var l := SegmentLength(g, distance).value;
      l >= 0.0 && l * l == SquaredDistance(FromPoint(g.fromto.value), ToPoint(g.fromto.value))
  {
  }

  function EndpointsAsFromto(a: Vec3, b: Vec3): (f: seq<real>)
    ensures |f| == 6 && FromPoint(f) == a && ToPoint(f) == b
  {
    Vec3ToList(a) + Vec3ToList(b)
  }

  /** Swapping the two fromto endpoints leaves the length unchanged. */
  lemma SegmentLengthSymmetric(g: MjcfGeom, distance: (Vec3, Vec3) -> real, a: Vec3, b: Vec3)
    requires IsEuclideanDistance(distance)
    requires g.fromto == Some(EndpointsAsFromto(a, b))
    ensures SegmentLength(g.(fromto := Some(EndpointsAsFromto(b, a))), distance) == SegmentLength(g, distance)
  {
    var dab, dba := distance(a, b), distance(b, a);
    assert SquaredDistance(a, b) == SquaredDistance(b, a) by {
      SquaredDifferenceSymmetric(a.x, b.x);
      SquaredDifferenceSymmetric(a.y, b.y);
      SquaredDifferenceSymmetric(a.z, b.z);
    }
    SquareRootUnique(dab, dba);
  }

  lemma SquaredDifferenceSymmetric(u: real, v: real)
    ensures (u - v) * (u - v) == (v - u) * (v - u)
  {
    var d := u - v;
    assert v - u == -d;
    assert (-d) * (-d) == d * d;
  }

  /** Translating both fromto endpoints by the same offset leaves the length
      unchanged: it depends only on the segment, not on where it lies. */
  lemma SegmentLengthTranslationInvariant(g: MjcfGeom, distance: (Vec3, Vec3) -> real, a: Vec3, b: Vec3, t: Vec3)
    requires IsEuclideanDistance(distance)
    requires g.fromto == Some(EndpointsAsFromto(a, b))
    ensures SegmentLength(g.(fromto := Some(EndpointsAsFromto(Add3(a, t), Add3(b, t)))), distance) == SegmentLength(g, distance)
  {
    var a', b' := Add3(a, t), Add3(b, t);
    assert a'.x - b'.x == a.x - b.x && a'.y - b'.y == a.y - b.y && a'.z - b'.z == a.z - b.z;
    assert SquaredDistance(a', b') == SquaredDistance(a, b);
    SquareRootUnique(distance(a', b'), distance(a, b));
  }

  /** Sphere radius and ellipsoid radii are the MJCF sizes unchanged. */
  lemma RoundShapesPassThrough(g: MjcfGeom, distance: (Vec3, Vec3) -> real)
    requires g.geomType == Some("sphere") || g.geomType == Some("ellipsoid")
    requires ParametersPresent(g)
    ensures GeomToSdf(g, distance).Ok?
    ensures g.geomType == Some("sphere") ==>
      GeomToSdf(g, distance).value.sphere == Some(Sphere(g.size[0]))
    ensures g.geomType == Some("ellipsoid") ==>
      GeomToSdf(g, distance).value.ellipsoid == Some(Ellipsoid(Vec3(g.size[0], g.size[1], g.size[2])))
  {
  }

  /** A plane's 2D SDFormat size is twice the first two MJCF sizes. */
  lemma PlaneSizeDoubled(g: MjcfGeom, distance: (Vec3, Vec3) -> real)
    requires g.geomType == Some("plane") && |g.size| >= 2
    ensures GeomToSdf(g, distance).Ok?
    ensures GeomToSdf(g, distance).value.plane == Some(Plane(Vec2(2.0 * g.size[0], 2.0 * g.size[1])))
  {
  }

  // ---------------------------------------------------------------------
  // Naming of visuals and collisions

  datatype Role = VisualRole | CollisionRole

  function RoleName(role: Role): string
  {
    match role
    case VisualRole => "visual"
    case CollisionRole => "collision"
  }

  /** The name given to a visual or collision: the role and the declared
      name, or, for an anonymous geom, "unnamed_", the role and the current
      value of that role's counter. */
  function AttachmentName(role: Role, declared: Option<string>, counter: nat): string
  {
    match declared
    case Some(n) => RoleName(role) + "_" + n
    case None => "unnamed_" + RoleName(role) + "_" + Decimal.NatToString(counter)
  }

  /** Anonymous attachments of one role with different counter values get
      different names. */
  lemma AnonymousNamesDistinct(role: Role, m: nat, n: nat)
    requires m != n
    ensures AttachmentName(role, None, m) != AttachmentName(role, None, n)
  {
    var p := "unnamed_" + RoleName(role) + "_";
    var sm, sn := Decimal.NatToString(m), Decimal.NatToString(n);
    Decimal.NatToStringInjective(m, n);
    assert (p + sm)[|p|..] == sm;
    assert (p + sn)[|p|..] == sn;
  }

  /** A declared-name attachment never takes the name of an anonymous one. */
  lemma DeclaredNamesNeverAnonymous(role: Role, other: Role, n: string, k: nat, k': nat)
    ensures AttachmentName(role, Some(n), k) != AttachmentName(other, None, k')
  {
    assert AttachmentName(role, Some(n), k)[0] != 'u';
    assert AttachmentName(other, None, k')[0] == 'u';
  }

  /** A visual and a collision never share a name. */
  lemma RolesNeverShareNames(v: Option<string>, c: Option<string>, k: nat, k': nat)
    ensures AttachmentName(VisualRole, v, k) != AttachmentName(CollisionRole, c, k')
  {
    var vn, cn := AttachmentName(VisualRole, v, k), AttachmentName(CollisionRole, c, k');
    if v.Some? || c.Some? {
      assert vn[0] != cn[0];
    } else {
      assert vn[8] != cn[8];
    }
  }

  /** The default pose of a new sdf.Collision: identity, relative to the
      default frame. */
  const DefaultSemanticPose := SemanticPose(Pose(Vec3(0.0, 0.0, 0.0), Quaternion(1.0, 0.0, 0.0, 0.0)), "")

  /** The module-level state of the MJCF-to-SDFormat geometry converter: the
      two counters that number anonymous visuals and collisions. The ghost
      sequences record the anonymous names issued so far. */
  class GeomConverter {
    var visualNumber: nat
    var collisionNumber: nat
    ghost var issuedVisualNames: seq<string>
    ghost var issuedCollisionNames: seq<string>

    ghost predicate Valid()
      reads this
    {
      && |issuedVisualNames| == visualNumber
      && (forall i :: 0 <= i < |issuedVisualNames| ==> issuedVisualNames[i] == AttachmentName(VisualRole, None, i))
      && |issuedCollisionNames| == collisionNumber
      && (forall i :: 0 <= i < |issuedCollisionNames| ==> issuedCollisionNames[i] == AttachmentName(CollisionRole, None, i))
    }

    /** Both counters start at 0 when the module is loaded. */
    constructor ()
      ensures Valid()
      ensures visualNumber == 0 && collisionNumber == 0
    {
      visualNumber, collisionNumber := 0, 0;
      issuedVisualNames, issuedCollisionNames := [], [];
    }

    /** mjcf_visual_to_sdf. The anonymous counter advances before the shape
        is converted, so it advances even when the conversion raises. */
    method VisualToSdf(geom: MjcfGeom, distance: (Vec3, Vec3) -> real) returns (r: Result<Visual>)
      requires Valid()
      modifies this
      ensures Valid()
      ensures r == match GeomToSdf(geom, distance)
                   case Ok(g) => Ok(Visual(AttachmentName(VisualRole, geom.name, old(visualNumber)), g))
                   case Err(e) => Err(e)
      ensures geom.name.Some? ==> visualNumber == old(visualNumber) && issuedVisualNames == old(issuedVisualNames)
      ensures geom.name.None? ==>
        && visualNumber == old(visualNumber) + 1
        && AttachmentName(VisualRole, None, old(visualNumber)) !in old(issuedVisualNames)
        && issuedVisualNames == old(issuedVisualNames) + [AttachmentName(VisualRole, None, old(visualNumber))]
      ensures collisionNumber == old(collisionNumber) && issuedCollisionNames == old(issuedCollisionNames)
    {
      var name: string;
      if geom.name.Some? {
        name := "visual_" + geom.name.value;
      } else {
        name := "unnamed_visual_" + Decimal.NatToString(visualNumber);
        forall i | 0 <= i < |issuedVisualNames|
          ensures issuedVisualNames[i] != name
        {
          AnonymousNamesDistinct(VisualRole, i, visualNumber);
        }
        issuedVisualNames := issuedVisualNames + [name];
        visualNumber := visualNumber + 1;
      }
      assert name == AttachmentName(VisualRole, geom.name, old(visualNumber));
      var g := GeomToSdf(geom, distance);
      r := match g
           case Ok(geometry) => Ok(Visual(name, geometry))
           case Err(e) => Err(e);
    }

    /** mjcf_collision_to_sdf, the same as VisualToSdf with the collision
        prefix and counter. */
    method CollisionToSdf(geom: MjcfGeom, distance: (Vec3, Vec3) -> real) returns (r: Result<Collision>)
      requires Valid()
      modifies this
      ensures Valid()
      ensures r == match GeomToSdf(geom, distance)
                   case Ok(g) => Ok(Collision(AttachmentName(CollisionRole, geom.name, old(collisionNumber)), DefaultSemanticPose, g))
                   case Err(e) => Err(e)
      ensures geom.name.Some? ==> collisionNumber == old(collisionNumber) && issuedCollisionNames == old(issuedCollisionNames)
      ensures geom.name.None? ==>
        && collisionNumber == old(collisionNumber) + 1
        && AttachmentName(CollisionRole, None, old(collisionNumber)) !in old(issuedCollisionNames)
        && issuedCollisionNames == old(issuedCollisionNames) + [AttachmentName(CollisionRole, None, old(collisionNumber))]
      ensures visualNumber == old(visualNumber) && issuedVisualNames == old(issuedVisualNames)
    {
      var name: string;
      if geom.name.Some? {
        name := "collision_" + geom.name.value;
      } else {
        name := "unnamed_collision_" + Decimal.NatToString(collisionNumber);
        forall i | 0 <= i < |issuedCollisionNames|
          ensures issuedCollisionNames[i] != name
        {
          AnonymousNamesDistinct(CollisionRole, i, collisionNumber);
        }
        issuedCollisionNames := issuedCollisionNames + [name];
        collisionNumber := collisionNumber + 1;
      }
      assert name == AttachmentName(CollisionRole, geom.name, old(collisionNumber));
      var g := GeomToSdf(geom, distance);
      r := match g
           case Ok(geometry) => Ok(Collision(name, DefaultSemanticPose, geometry))
           case Err(e) => Err(e);
    }
  }
}

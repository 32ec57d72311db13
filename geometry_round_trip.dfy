/** How the two shape conversions compose: MJCF to SDFormat and back, and
    SDFormat to MJCF and back. Sizes are reals, so halving and doubling are
    exact. */
module GeometryRoundTrip {
  import opened Base
  import opened SdfTypes
  import opened MjcfToSdfGeometry
  import opened SdfToMjcfGeometry

  /** The number of MJCF size entries the conversion of a type reads. */
  function SizeEntriesRead(t: string): nat
  {
    if t in {"box", "ellipsoid"} then 3
    else if t in {"capsule", "cylinder"} then 2
    else 1
  }

  /** MJCF to SDFormat to MJCF gives back the type and the size entries the
      conversion reads, for box, ellipsoid and sphere (whose fromto the
      conversion ignores), and for capsule and cylinder given by half-length. */
  lemma MjcfRoundTrip(g: MjcfGeom, distance: (Vec3, Vec3) -> real)
    requires g.geomType.Some? && g.geomType.value in {"box", "capsule", "cylinder", "ellipsoid", "sphere"}
    requires g.geomType.value in {"capsule", "cylinder"} ==> g.fromto.None?
    requires ParametersPresent(g)
    ensures GeomToSdf(g, distance).Ok?
    ensures ShapeToMjcf(GeomToSdf(g, distance).value)
            == Ok(MjcfShape(g.geomType.value, g.size[..SizeEntriesRead(g.geomType.value)]))
  {
    var t := g.geomType.value;
    var back := ShapeToMjcf(GeomToSdf(g, distance).value);
    assert back.value.size == g.size[..SizeEntriesRead(t)];
  }

  /** A plane comes back with its two half-sizes and a grid spacing of 0, so
      only a zero third entry survives the trip. */
  lemma PlaneRoundTrip(g: MjcfGeom, distance: (Vec3, Vec3) -> real)
    requires g.geomType == Some("plane") && |g.size| >= 2
    ensures GeomToSdf(g, distance).Ok?
    ensures ShapeToMjcf(GeomToSdf(g, distance).value) == Ok(MjcfShape("plane", [g.size[0], g.size[1], 0.0]))
    ensures |g.size| >= 3 ==>
      (ShapeToMjcf(GeomToSdf(g, distance).value).value.size == g.size[..3] <==> g.size[2] == 0.0)
  {
  }

  /** A capsule or cylinder given by fromto comes back as radius and
      half-length, the half-length being half the endpoints' distance. */
  lemma FromtoRoundTrip(g: MjcfGeom, distance: (Vec3, Vec3) -> real)
    requires IsEuclideanDistance(distance)
    requires g.geomType == Some("capsule") || g.geomType == Some("cylinder")
    requires g.fromto.Some? && |g.fromto.value| >= 6 && |g.size| >= 1
    ensures GeomToSdf(g, distance).Ok?
    ensures var back := ShapeToMjcf(GeomToSdf(g, distance).value);
      && back.Ok? && back.value.geomType == g.geomType.value
      && |back.value.size| == 2 && back.value.size[0] == g.size[0]
      && back.value.size[1] >= 0.0
      && (2.0 * back.value.size[1]) * (2.0 * back.value.size[1])
         == SquaredDistance(FromPoint(g.fromto.value), ToPoint(g.fromto.value))
  {
    SegmentLengthIsDistance(g, distance);
    var l := SegmentLength(g, distance).value;
    assert 2.0 * (l / 2.0) == l;
  }

  /** SDFormat to MJCF to SDFormat is the identity on every geometry whose
      tag names its only shape, mesh excepted. */
  lemma SdfRoundTrip(geo: Geometry, name: Option<string>, distance: (Vec3, Vec3) -> real)
    requires TagMatchesShape(geo) && geo.kind != MeshKind
    ensures ShapeToMjcf(geo).Ok?
    ensures var s := ShapeToMjcf(geo).value;
      GeomToSdf(MjcfGeom(name, Some(s.geomType), s.size, None), distance) == Ok(geo)
  {
    var s := ShapeToMjcf(geo).value;
    var back := GeomToSdf(MjcfGeom(name, Some(s.geomType), s.size, None), distance);
    match geo.kind {
      case BoxKind => assert back.value.box == geo.box;
      case CapsuleKind => assert back.value.capsule == geo.capsule;
      case CylinderKind => assert back.value.cylinder == geo.cylinder;
      case EllipsoidKind => assert back.value.ellipsoid == geo.ellipsoid;
      case PlaneKind => assert back.value.plane == geo.plane;
      case SphereKind => assert back.value.sphere == geo.sphere;
    }
  }

  /** A mesh fails in both directions, never converting silently. */
  lemma MeshFailsBothWays(g: MjcfGeom, geo: Geometry, distance: (Vec3, Vec3) -> real)
    requires g.geomType == Some("mesh")
    requires geo.mesh.Some? && !HasConvertibleShape(geo)
    ensures GeomToSdf(g, distance) == Err(UnsupportedShape(Some("mesh")))
    ensures ShapeToMjcf(geo) == Err(MeshesNotSupported)
  {
  }
}

# gz-mujoco geometry and kinematic-tree conversion, modelled in Dafny

This project models the core of the gz-mujoco converters between MuJoCo's
MJCF format and Gazebo's SDFormat. It covers four parts.

- **MJCF geom to SDFormat geometry** (`mjcf_geom_to_sdf`). A geom's type
  string selects a primitive: box, capsule, cylinder, ellipsoid, sphere or
  plane. Box and plane half-extents are doubled. A capsule or cylinder takes
  `size[0]` as its radius. Its length is `2*size[1]`, or the distance between
  the two `fromto` endpoints. Sphere and ellipsoid sizes pass through. Any
  other type raises.
- **Naming of visuals and collisions** (`mjcf_visual_to_sdf`,
  `mjcf_collision_to_sdf`). A named geom becomes `visual_<name>` or
  `collision_<name>`. An unnamed geom becomes `unnamed_visual_<N>` or
  `unnamed_collision_<N>`, where N is a module-level counter that then
  advances. The two counters are modelled as the fields of one
  `GeomConverter` object.
- **SDFormat geometry to MJCF geom** (`add_geometry`, `add_collision`). The
  first set shape slot wins, in the order box, capsule, cylinder, ellipsoid,
  plane, sphere. Box sizes, capsule and cylinder lengths and plane sizes are
  halved; radii (sphere, ellipsoid, capsule, cylinder) pass through unchanged,
  and a plane gets a third size entry of 0.
  Meshes and unknown shapes raise. The geom is appended to the body before
  the shape dispatch, so on the raise path the body already holds it.
  `add_collision` resolves the pose first and puts the geom in collision
  group 3.
- **The worldbody walk** (`mjcf_worldbody_to_sdf`, with its nested
  `iterate_bodies`). The worldbody becomes a static model, added to the world
  first. The `<option>` element sets gravity, magnetic field and wind. The
  body tree is walked in pre-order into the articulated model, which is added
  last. For each body the walk adds:
  - its converted joints;
  - a fixed joint, when the body declares no joints and has no freejoint;
  - its link;
  - then its children, with the body's name as their parent name.

  A flag adds four system plugins.

The pure parts are functions over datatypes: `GeomToSdf`, `ShapeToMjcf`,
and the `ForestTrace` description of the walk. The parts that update state
in place are classes with methods:

- `GeomConverter` holds the counters;
- `MjcfBodyElement` and `MjcfGeomElement` are the MJCF body and geom; the
  body also holds the geom names already in use in its MJCF model;
- `SdfModel` and `SdfWorld` are the SDFormat containers.

Each method is proved against the functions. `IterateBodies`, for example,
ensures that the model's sequence of `add_joint`/`add_link` calls equals
`ForestTrace` of the bodies. The lemmas in `KinematicTree` then prove what
that trace contains.

Module layout:

- `Base`: options, results, the conversion errors and vectors;
- `SdfTypes`: SDFormat geometry values;
- `Decimal`: `str()` on counters;
- `MjcfToSdfGeometry`;
- `SdfToMjcfGeometry`;
- `GeometryRoundTrip`: both directions composed;
- `KinematicTree`: the walk as functions, with its lemmas;
- `MjcfWorld`: the model and world classes and the walk as methods.

The naming counters are module globals in the code. They start at 0 when the
module is loaded and are never reset. The model follows the code: one
`GeomConverter` object keeps counting across conversions, so two separate
conversions that each hold one anonymous visual name it `unnamed_visual_0`
and then `unnamed_visual_1`.

`Vector3d.distance` needs a square root, which Dafny's reals do not have. The
converters therefore take the distance function as a parameter. Properties
of the `fromto` length are proved for any function satisfying
`IsEuclideanDistance`: the distance is non-negative and its square is the
squared coordinate difference.

## Model

| member | source | states |
|---|---|---|
| Base.ListToVec3 | mjcf_to_sdformat/mjcf_to_sdformat/converters/geometry.py:41 | `su.list_to_vec3d` succeeds exactly when the list has at least three entries, and the vector's components are the first three; a shorter list is a missing-parameter error |
| Base.Vec3ToList | sdformat_mjcf/src/sdformat_mjcf/converters/geometry.py:44 | `su.vec3d_to_list` gives the three components in x, y, z order |
| Decimal.NatToString | mjcf_to_sdformat/mjcf_to_sdformat/converters/geometry.py:105 | `str(n)` of a counter is a non-empty string of decimal digits without a leading zero, one digit exactly when n < 10 |
| Decimal.StringToNatOfNatToString | mjcf_to_sdformat/mjcf_to_sdformat/converters/geometry.py:105 | reading the decimal string of a counter back gives the counter |
| Decimal.NatToStringInjective | mjcf_to_sdformat/mjcf_to_sdformat/converters/geometry.py:105 | different counter values have different decimal strings |
| MjcfToSdfGeometry.SegmentLength | mjcf_to_sdformat/mjcf_to_sdformat/converters/geometry.py:48-54 | the capsule/cylinder length exists exactly when `size[1]` exists (no fromto) or all six fromto entries exist |
| MjcfToSdfGeometry.GeomToSdf | mjcf_to_sdformat/mjcf_to_sdformat/converters/geometry.py:26-88 | succeeds exactly for box, capsule, cylinder, ellipsoid, sphere and plane with their parameters present; any other type, or none, raises "unsupported shape" with that type; a success sets exactly one shape, the one its type tag names, and never a mesh |
| MjcfToSdfGeometry.BoxSizeDoubled | mjcf_to_sdformat/mjcf_to_sdformat/converters/geometry.py:39-43 | a box's size is twice its MJCF half-extents, component by component, and its tag is BOX |
| MjcfToSdfGeometry.SegmentShapeParameters | mjcf_to_sdformat/mjcf_to_sdformat/converters/geometry.py:45-68 | a capsule or cylinder has radius `size[0]` and the segment length, under the matching tag |
| MjcfToSdfGeometry.SegmentLengthWithoutFromto | mjcf_to_sdformat/mjcf_to_sdformat/converters/geometry.py:48-49 | without fromto the length is `2*size[1]` |
| MjcfToSdfGeometry.SegmentLengthIsDistance | mjcf_to_sdformat/mjcf_to_sdformat/converters/geometry.py:50-54 | with fromto the length is non-negative and its square is the squared distance between `fromto[0..2]` and `fromto[3..5]` |
| MjcfToSdfGeometry.SegmentLengthSymmetric | mjcf_to_sdformat/mjcf_to_sdformat/converters/geometry.py:50-54 | swapping the two fromto endpoints leaves the length unchanged |
| MjcfToSdfGeometry.SegmentLengthTranslationInvariant | mjcf_to_sdformat/mjcf_to_sdformat/converters/geometry.py:62-66 | translating both fromto endpoints by one offset leaves the length unchanged |
| MjcfToSdfGeometry.RoundShapesPassThrough | mjcf_to_sdformat/mjcf_to_sdformat/converters/geometry.py:69-79 | a sphere's radius is `size[0]` and an ellipsoid's radii are `size[0..2]`, unchanged |
| MjcfToSdfGeometry.PlaneSizeDoubled | mjcf_to_sdformat/mjcf_to_sdformat/converters/geometry.py:80-84 | a plane's 2D size is `(2*size[0], 2*size[1])` |
| MjcfToSdfGeometry.AnonymousNamesDistinct | mjcf_to_sdformat/mjcf_to_sdformat/converters/geometry.py:103-106 | two anonymous names of one role with different counter values differ |
| MjcfToSdfGeometry.DeclaredNamesNeverAnonymous | mjcf_to_sdformat/mjcf_to_sdformat/converters/geometry.py:100-106 | a name built from a declared geom name never equals an anonymous name, of either role |
| MjcfToSdfGeometry.RolesNeverShareNames | mjcf_to_sdformat/mjcf_to_sdformat/converters/geometry.py:100-130 | a visual's name and a collision's name always differ |
| MjcfToSdfGeometry.GeomConverter.constructor | mjcf_to_sdformat/mjcf_to_sdformat/converters/geometry.py:22-23 | both counters start at 0, with no anonymous name issued |
| MjcfToSdfGeometry.GeomConverter.VisualToSdf | mjcf_to_sdformat/mjcf_to_sdformat/converters/geometry.py:91-112 | the visual carries `GeomToSdf`'s geometry or its error; it is named `visual_<name>`, or `unnamed_visual_<old counter>` for an anonymous geom; only an anonymous geom advances the visual counter, by exactly 1 and even when the conversion raises; the new anonymous name was never issued before; the collision counter is untouched |
| MjcfToSdfGeometry.GeomConverter.CollisionToSdf | mjcf_to_sdformat/mjcf_to_sdformat/converters/geometry.py:115-136 | the same for collisions, with the collision prefix and counter and a default pose; the visual counter is untouched |
| SdfToMjcfGeometry.ShapeToMjcf | sdformat_mjcf/src/sdformat_mjcf/converters/geometry.py:48-78 | succeeds exactly when one of the six convertible shapes is set; otherwise a set mesh raises "Meshes are not yet supported" and anything else raises with the geometry's type; box and ellipsoid give 3 sizes, capsule and cylinder 2, sphere 1, plane 3 with the last exactly 0 |
| SdfToMjcfGeometry.ShapeToMjcfFollowsTag | sdformat_mjcf/src/sdformat_mjcf/converters/geometry.py:48-78 | when the tag names the only set shape, the MJCF type is the tag's name and only a mesh fails |
| SdfToMjcfGeometry.ShapeSizes | sdformat_mjcf/src/sdformat_mjcf/converters/geometry.py:48-74 | the first set slot wins in the order box, capsule, cylinder, ellipsoid, plane, sphere; box sizes halved; capsule/cylinder `[radius, length/2]`; ellipsoid radii unchanged; plane `[x/2, y/2, 0]`; sphere `[radius]` |
| SdfToMjcfGeometry.MjcfBodyElement.AddGeom | sdformat_mjcf/src/sdformat_mjcf/converters/geometry.py:41-46 | a geom name already in use in the model raises `DuplicateGeomName` and changes nothing; otherwise appends one new geom with the given name, pos and euler, and no type, size or group, and the name becomes taken; keeps every geom's name among the taken names (`Valid`) |
| SdfToMjcfGeometry.AddGeometry | sdformat_mjcf/src/sdformat_mjcf/converters/geometry.py:26-80 | a missing geometry adds nothing and returns nothing; a name already in use raises `DuplicateGeomName` before anything is added; otherwise exactly one new geom is appended, with the name, the pose's position and `quat_to_euler_list` of its rotation, and the name becomes taken; the geom then carries `ShapeToMjcf`'s type and size and is returned, or stays untyped, still in the body, while the error propagates |
| SdfToMjcfGeometry.AddCollision | sdformat_mjcf/src/sdformat_mjcf/converters/geometry.py:83-88 | a pose that does not resolve raises `PoseUnresolved` before any geom is added; a collision name already in use raises `DuplicateGeomName` and adds nothing; otherwise the geom is added under the collision's name at the resolved pose and, when the shape converts, its group is 3 |
| GeometryRoundTrip.MjcfRoundTrip | sdformat_mjcf/src/sdformat_mjcf/converters/geometry.py:48-74 | MJCF to SDFormat (`GeomToSdf`, mjcf_to_sdformat converters/geometry.py lines 39-79) to MJCF gives back the type and the size entries read, for box, ellipsoid and sphere with or without a fromto (which their conversion ignores), and for capsule/cylinder without fromto |
| GeometryRoundTrip.PlaneRoundTrip | sdformat_mjcf/src/sdformat_mjcf/converters/geometry.py:64-70 | a plane comes back as `[size[0], size[1], 0]`, so its third entry survives the trip exactly when it was 0 |
| GeometryRoundTrip.FromtoRoundTrip | mjcf_to_sdformat/mjcf_to_sdformat/converters/geometry.py:50-66 | a capsule/cylinder given by fromto comes back as its radius and a non-negative half-length whose double squared is the endpoints' squared distance |
| GeometryRoundTrip.SdfRoundTrip | sdformat_mjcf/src/sdformat_mjcf/converters/geometry.py:48-74 | SDFormat to MJCF to SDFormat is the identity on every non-mesh geometry whose tag names its only shape |
| GeometryRoundTrip.MeshFailsBothWays | sdformat_mjcf/src/sdformat_mjcf/converters/geometry.py:75-76 | a mesh raises in both directions |
| KinematicTree.ConvertedJointsContents | mjcf_to_sdformat/mjcf_to_sdformat/converters/world.py:96-103 | every added joint comes from a declared joint that converts, with the immediate parent's name and the body's name; every declared joint that converts is added; those that do not are dropped |
| KinematicTree.BodyJointsContents | mjcf_to_sdformat/mjcf_to_sdformat/converters/world.py:96-106 | a body without joints or freejoint gets exactly one fixed joint from its parent's name to its own; with a freejoint and no joints it gets none; with declared joints it gets exactly their conversions and no fixed joint; every joint links the parent's name to the body's |
| KinematicTree.BodyEventsContents | mjcf_to_sdformat/mjcf_to_sdformat/converters/world.py:96-108 | one body adds its joints and exactly one link, built from its name and its parent's name |
| KinematicTree.ForestTraceAppend | mjcf_to_sdformat/mjcf_to_sdformat/converters/world.py:86-111 | siblings are processed in source order: the calls for a list of bodies are those for a prefix followed by those for the rest |
| KinematicTree.SubtreeTraceFollowsVisits | mjcf_to_sdformat/mjcf_to_sdformat/converters/world.py:86-111 | the calls for a subtree are, visit by visit in pre-order, each body's joints and then its link |
| KinematicTree.ForestTraceFollowsVisits | mjcf_to_sdformat/mjcf_to_sdformat/converters/world.py:83-112 | the same for a list of sibling bodies |
| KinematicTree.VisitEventsContents | mjcf_to_sdformat/mjcf_to_sdformat/converters/world.py:86-108 | a list of visits adds one link per visit, in visit order, and the visited bodies' joints |
| KinematicTree.WalkContents | mjcf_to_sdformat/mjcf_to_sdformat/converters/world.py:83-112 | the walk's links are one per body in pre-order, each with its visit's parent name; its joints are the bodies' joints in the same order |
| KinematicTree.SubtreeVisitCount | mjcf_to_sdformat/mjcf_to_sdformat/converters/world.py:108-111 | the walk over a subtree makes exactly as many visits as the subtree has bodies |
| KinematicTree.ForestVisitCount | mjcf_to_sdformat/mjcf_to_sdformat/converters/world.py:86-111 | the walk over a forest makes exactly as many visits as the forest has bodies |
| KinematicTree.LinkCount | mjcf_to_sdformat/mjcf_to_sdformat/converters/world.py:86-111 | the number of links added equals the number of bodies below the worldbody |
| KinematicTree.ParentThreading | mjcf_to_sdformat/mjcf_to_sdformat/converters/world.py:83-112 | every visit is given either the starting parent name (None from the world), when its body is top-level, or the name of an earlier-visited body that has a body equal to it among its direct children; the exact positions are `ForestVisitPosition` and `ChildVisitPosition`; the name is None when the containing body is unnamed, the same as a top-level body's (see `UnnamedParentLooksLikeWorld`) |
| KinematicTree.ForestVisitPosition | mjcf_to_sdformat/mjcf_to_sdformat/converters/world.py:83-111 | the k-th top-level body is visited at the position right after its earlier siblings' subtrees, with the walk's starting parent name |
| KinematicTree.ChildVisitPosition | mjcf_to_sdformat/mjcf_to_sdformat/converters/world.py:108-111 | in a body's subtree, its k-th direct child is visited right after the body and its earlier children's subtrees, with that body's name as parent |
| KinematicTree.RigidLeaf | mjcf_to_sdformat/mjcf_to_sdformat/converters/world.py:104-111 | a childless body without joints or freejoint adds one fixed joint from its parent's name and its link, and nothing more |
| KinematicTree.TwoRigidBodies | mjcf_to_sdformat/mjcf_to_sdformat/converters/world.py:104-108 | two top-level bodies, each without declared joints, without a freejoint and without children, give two links and two fixed joints attached to the world (parent None) |
| KinematicTree.UnnamedParentLooksLikeWorld | mjcf_to_sdformat/mjcf_to_sdformat/converters/world.py:104-111 | a rigid child of an unnamed body with a freejoint gets the fixed joint `FixedJoint(None, name)`, the same joint it would get directly under the worldbody, so its joint cannot be told apart from one attached to the world |
| MjcfWorld.SdfModel.constructor | mjcf_to_sdformat/mjcf_to_sdformat/converters/world.py:41 | a new model is unnamed, not static, with no joints and no links |
| MjcfWorld.SdfModel.SetName | mjcf_to_sdformat/mjcf_to_sdformat/converters/world.py:42-45 | sets the name and nothing else |
| MjcfWorld.SdfModel.SetStatic | mjcf_to_sdformat/mjcf_to_sdformat/converters/world.py:66 | sets the static flag and nothing else |
| MjcfWorld.SdfModel.AddJoint | mjcf_to_sdformat/mjcf_to_sdformat/converters/world.py:103 | appends the joint, leaves the links, and records the call |
| MjcfWorld.SdfModel.AddLink | mjcf_to_sdformat/mjcf_to_sdformat/converters/world.py:108 | appends the link, leaves the joints, and records the call |
| MjcfWorld.SdfWorld.AddModel | mjcf_to_sdformat/mjcf_to_sdformat/converters/world.py:67 | appends a copy of the model and changes nothing else |
| MjcfWorld.SdfWorld.AddPlugin | mjcf_to_sdformat/mjcf_to_sdformat/converters/world.py:126-127 | appends the plugin and changes nothing else |
| MjcfWorld.SdfWorld.SetGravity | mjcf_to_sdformat/mjcf_to_sdformat/converters/world.py:73 | sets gravity and nothing else |
| MjcfWorld.SdfWorld.SetMagneticField | mjcf_to_sdformat/mjcf_to_sdformat/converters/world.py:77-78 | sets the magnetic field and nothing else |
| MjcfWorld.SdfWorld.SetWindLinearVelocity | mjcf_to_sdformat/mjcf_to_sdformat/converters/world.py:80-81 | sets the wind velocity and nothing else |
| MjcfWorld.GravityAfter | mjcf_to_sdformat/mjcf_to_sdformat/converters/world.py:71-75 | without an option element gravity is unchanged; a "disable" flag gives (0,0,0); otherwise a set gravity is copied and an unset one leaves it unchanged |
| MjcfWorld.MagneticAfter | mjcf_to_sdformat/mjcf_to_sdformat/converters/world.py:76-78 | the magnetic field is copied only when the option element sets it |
| MjcfWorld.WindAfter | mjcf_to_sdformat/mjcf_to_sdformat/converters/world.py:79-81 | the wind velocity is copied only when the option element sets it |
| MjcfWorld.GravityDisableWins | mjcf_to_sdformat/mjcf_to_sdformat/converters/world.py:72-75 | with the "disable" flag the explicit gravity makes no difference and gravity is zero |
| MjcfWorld.ExportedPlugins | mjcf_to_sdformat/mjcf_to_sdformat/converters/world.py:114-127 | the whole plugin table when the flag is set, and no plugin otherwise |
| MjcfWorld.StaticModel | mjcf_to_sdformat/mjcf_to_sdformat/converters/world.py:65-66 | the worldbody's model is static and holds only the world link and no joint |
| MjcfWorld.ArticulatedModel | mjcf_to_sdformat/mjcf_to_sdformat/converters/world.py:41-45 | the articulated model is named by the root's model attribute, or "model" without one, and is not static |
| MjcfWorld.AddStaticModel | mjcf_to_sdformat/mjcf_to_sdformat/converters/world.py:49-67 | the world gains exactly the static worldbody model and nothing else changes |
| MjcfWorld.ApplyOption | mjcf_to_sdformat/mjcf_to_sdformat/converters/world.py:71-81 | the world's gravity, magnetic field and wind become `GravityAfter`, `MagneticAfter` and `WindAfter` of the old values; models and plugins are untouched |
| MjcfWorld.AddBodyJoints | mjcf_to_sdformat/mjcf_to_sdformat/converters/world.py:96-106 | the model gains exactly `BodyJoints` for the body, in order, and nothing else |
| MjcfWorld.IterateBodies | mjcf_to_sdformat/mjcf_to_sdformat/converters/world.py:83-112 | the model's calls grow by exactly `ForestTrace` of the bodies and the parent name; its name and static flag are untouched |
| MjcfWorld.AddSystemPlugins | mjcf_to_sdformat/mjcf_to_sdformat/converters/world.py:114-127 | the world gains exactly the four (library, symbol) plugin pairs of the table, in table order |
| MjcfWorld.WorldbodyToSdf | mjcf_to_sdformat/mjcf_to_sdformat/converters/world.py:29-129 | the world gains exactly two models: first `StaticModel`, then `ArticulatedModel`, whose links and joints are those of `ForestTrace` of the bodies under worldbody from parent None; it gains the plugin table exactly when the flag is set; gravity, magnetic field and wind follow the option element |

## Left out

- Lights and cameras (`mjcf_light_to_sdf`, `mjcf_camera_sensor_to_sdf`, `link.add_sensor`, `world.add_light`): not modelled. These are sensor and lighting conversions, not geometry or tree structure.
- `MjcfModifiers` and `apply_modifiers_to_element`: the default-class modifiers are not part of this model. The joints reach the walk as the model's `MjcfJoint` values.
- The `physics` argument: the MuJoCo physics handle is only passed on to `mjcf_body_to_sdf`, so it is not modelled.
- `mjcf_body_to_sdf`, `mjcf_joint_to_sdf` and `add_fixed_joint` are not part of this model:
  - a link is recorded as the body name and parent name it is built from;
  - a converted joint is recorded as its source joint with the parent and child names;
  - whether `mjcf_joint_to_sdf` returns None is a parameter, `converts`.
- `su.find_unique_name`: its result is the `staticName` parameter of `WorldbodyToSdf`.
- The static worldbody link is the constant `WorldLink`. The worldbody's own geoms, and anything else `mjcf_body_to_sdf` puts in it, are not modelled.
- `su.pose_resolver` and `su.quat_to_euler_list` are frame-graph and trigonometry code. They are the parameters `resolve` and `quatToEuler`; `resolve` returns None where the resolver raises, and that failure is `PoseUnresolved`.
- `Vector3d.distance`: its square root is not computed. It is the parameter `distance`, and its properties are proved under `IsEuclideanDistance`.
- Floating point: all sizes are exact reals, so halving and doubling are exact. The round-trip lemmas do not hold bit-for-bit for every IEEE double.
- XML parsing and serialisation, and the dm_control and sdformat element APIs: an unset MJCF attribute reads as None, and an unset size reads as the empty list.
- GeomToSdf: the Python code fails in several ways when an entry is missing. Reading past the end of `size` or `fromto` raises an IndexError, and reading it on an unset attribute raises a TypeError. The model reports all of these as the single error `MissingParameter`.
- The plane's normal vector and the mesh's other fields are not modelled: no converter reads or sets them.
- The sdformat `Collision.geometry()` accessor never returns None, so `Collision.geometry` is not optional. The precondition of `add_collision` that the geometry is not None therefore holds by construction.
- `mjcf_to_sdformat`'s `mjcf_visual_to_sdf` and `mjcf_collision_to_sdf` also have a branch for `mjcf_geom_to_sdf` returning None. That function always returns a geometry or raises, so the branch is dead and is not modelled.
- SdfModel, SdfWorld: a model is copied into the world as a value when it is added, as the sdformat bindings do. Later changes to the Python object are not reflected.
- A per-conversion reset of the naming counters is not modelled, because the code never resets them.
- SdfModel.AddJoint, SdfModel.AddLink, SdfWorld.AddModel: always append. The sdformat `Model::AddJoint`, `Model::AddLink` and `World::AddModel` add nothing and return false when an element of that name already exists, and `mjcf_worldbody_to_sdf` ignores that result. The model assumes distinct names: `LinkCount`, `WalkContents` and the "exactly two models" clause of `WorldbodyToSdf` hold only when the link, joint and model names are distinct. Those names come from `mjcf_body_to_sdf`, `add_fixed_joint` and `find_unique_name`, which are not part of this model.
- MjcfBodyElement: each body element keeps its own copy of the model's geom names in use, given when it is built. A geom added through one body element is not seen by another element of the same model. In dm_control the namescope is shared by the whole model.

/** mjcf_worldbody_to_sdf: the SDFormat model and world objects it
    updates, and the recursive walk over the MJCF body tree. */
module MjcfWorld {
  import opened Base
  import opened KinematicTree

  /** A copy of a model as it stands when added to a world (the sdformat
      bindings copy a model on add_model). */
  datatype ModelValue = ModelValue(name: string, isStatic: bool, links: seq<SdfLink>, joints: seq<SdfJoint>)

  /** An SDFormat model under construction. The ghost log records the
      add_joint and add_link calls in the order they were made. */
  class SdfModel {
    var name: string
    var isStatic: bool
    var joints: seq<SdfJoint>
    var links: seq<SdfLink>
    ghost var log: seq<Event>

    ghost predicate Valid()
      reads this
    {
      joints == JointsIn(log) && links == LinksIn(log)
    }

    function Value(): ModelValue
      reads this
    {
      ModelValue(name, isStatic, links, joints)
    }

    /** sdf.Model(): unnamed, not static, empty. */
    constructor ()
      ensures Valid()
      ensures name == "" && !isStatic && log == [] && joints == [] && links == []
    {
      name, isStatic, joints, links := "", false, [], [];
      log := [];
    }

    method SetName(n: string)
      modifies this
      ensures name == n
      ensures isStatic == old(isStatic) && joints == old(joints) && links == old(links) && log == old(log)
    {
      name := n;
    }

    method SetStatic(s: bool)
      modifies this
      ensures isStatic == s
      ensures name == old(name) && joints == old(joints) && links == old(links) && log == old(log)
    {
      isStatic := s;
    }

    method AddJoint(j: SdfJoint)
      requires Valid()
      modifies this
      ensures Valid()
      ensures log == old(log) + [JointAdded(j)]
      ensures joints == old(joints) + [j] && links == old(links)
      ensures name == old(name) && isStatic == old(isStatic)
    {
      joints := joints + [j];
      log := log + [JointAdded(j)];
      assert log[..|log| - 1] == old(log);
    }

    method AddLink(l: SdfLink)
      requires Valid()
      modifies this
      ensures Valid()
      ensures log == old(log) + [LinkAdded(l)]
      ensures links == old(links) + [l] && joints == old(joints)
      ensures name == old(name) && isStatic == old(isStatic)
    {
      links := links + [l];
      log := log + [LinkAdded(l)];
      assert log[..|log| - 1] == old(log);
    }
  }

  /** A world system plugin: its library file name and the symbol it
      loads. */
  datatype Plugin = Plugin(filename: string, name: string)

  /** The plugins exported when the export flag is set, in table order. */
  const SystemPlugins: seq<Plugin> := [
    Plugin("ignition-gazebo-physics-system", "ignition::gazebo::systems::Physics"),
    Plugin("ignition-gazebo-sensors-system", "ignition::gazebo::systems::Sensors"),
    Plugin("ignition-gazebo-user-commands-system", "ignition::gazebo::systems::UserCommands"),
    Plugin("ignition-gazebo-scene-broadcaster-system", "ignition::gazebo::systems::SceneBroadcaster")
  ]

  /** An SDFormat world: the models and plugins added to it and its
      physical fields. */
  class SdfWorld {
    var models: seq<ModelValue>
    var plugins: seq<Plugin>
    var gravity: Vec3
    var magneticField: Vec3
    var windLinearVelocity: Vec3

    constructor (gravity: Vec3, magneticField: Vec3, windLinearVelocity: Vec3)
      ensures models == [] && plugins == []
      ensures this.gravity == gravity && this.magneticField == magneticField
      ensures this.windLinearVelocity == windLinearVelocity
    {
      models, plugins := [], [];
      this.gravity, this.magneticField, this.windLinearVelocity := gravity, magneticField, windLinearVelocity;
    }

    method AddModel(m: ModelValue)
      modifies this
      ensures models == old(models) + [m]
      ensures plugins == old(plugins) && gravity == old(gravity)
      ensures magneticField == old(magneticField) && windLinearVelocity == old(windLinearVelocity)
    {
      models := models + [m];
    }

    method AddPlugin(p: Plugin)
      modifies this
      ensures plugins == old(plugins) + [p]
      ensures models == old(models) && gravity == old(gravity)
      ensures magneticField == old(magneticField) && windLinearVelocity == old(windLinearVelocity)
    {
      plugins := plugins + [p];
    }

    method SetGravity(g: Vec3)
      modifies this
      ensures gravity == g
      ensures models == old(models) && plugins == old(plugins)
      ensures magneticField == old(magneticField) && windLinearVelocity == old(windLinearVelocity)
    {
      gravity := g;
    }

    method SetMagneticField(v: Vec3)
      modifies this
      ensures magneticField == v
      ensures models == old(models) && plugins == old(plugins)
      ensures gravity == old(gravity) && windLinearVelocity == old(windLinearVelocity)
    {
      magneticField := v;
    }

    method SetWindLinearVelocity(v: Vec3)
      modifies this
      ensures windLinearVelocity == v
      ensures models == old(models) && plugins == old(plugins)
      ensures gravity == old(gravity) && magneticField == old(magneticField)
    {
      windLinearVelocity := v;
    }
  }

  /** The <option> element: the gravity flag of its <flag> child, and the
      gravity, magnetic and wind attributes, each None when unset. */
  datatype MjcfOption = MjcfOption(
    gravityFlag: Option<string>,
    gravity: Option<Vec3>,
    magnetic: Option<Vec3>,
    wind: Option<Vec3>)

  /** The MJCF root: its model attribute, the bodies directly under
      worldbody, and the option element if present. */
  datatype MjcfRoot = MjcfRoot(model: Option<string>, worldBodies: seq<MjcfBody>, option: Option<MjcfOption>)

  /** The world's gravity after the option element is applied. */
  function GravityAfter(current: Vec3, option: Option<MjcfOption>): (g: Vec3)
    ensures option.None? ==> g == current
    ensures option.Some? && option.value.gravityFlag == Some("disable") ==> g == Vec3(0.0, 0.0, 0.0)
    ensures option.Some? && option.value.gravityFlag != Some("disable") ==>
      g == (if option.value.gravity.Some? then option.value.gravity.value else current)
  {
    match option
    case None => current
    case Some(o) =>
      if o.gravityFlag == Some("disable") then Vec3(0.0, 0.0, 0.0)
      else if o.gravity.Some? then o.gravity.value
      else current
  }

  /** A field copied from the option element only when it is set. */
  function CopiedIfSet(current: Vec3, value: Option<Vec3>): Vec3
  {
    if value.Some? then value.value else current
  }

  /** The world's magnetic field after the option element is applied. */
  function MagneticAfter(current: Vec3, option: Option<MjcfOption>): (v: Vec3)
    ensures option.None? || option.value.magnetic.None? ==> v == current
    ensures option.Some? && option.value.magnetic.Some? ==> v == option.value.magnetic.value
  {
    if option.Some? then CopiedIfSet(current, option.value.magnetic) else current
  }

  /** The world's wind velocity after the option element is applied. */
  function WindAfter(current: Vec3, option: Option<MjcfOption>): (v: Vec3)
    ensures option.None? || option.value.wind.None? ==> v == current
    ensures option.Some? && option.value.wind.Some? ==> v == option.value.wind.value
  {
    if option.Some? then CopiedIfSet(current, option.value.wind) else current
  }

  /** "disable" wins over an explicit gravity, and an absent option changes
      nothing. */
  lemma GravityDisableWins(current: Vec3, o: MjcfOption, g: Vec3)
    requires o.gravityFlag == Some("disable")
    ensures GravityAfter(current, Some(o.(gravity := Some(g)))) == Vec3(0.0, 0.0, 0.0)
    ensures GravityAfter(current, Some(o)) == GravityAfter(current, Some(o.(gravity := None)))
  {
  }

  lemma SeqAppendAssoc(a: seq<Event>, b: seq<Event>, c: seq<Event>)
    ensures (a + b) + c == a + (b + c)
  {
  }

  lemma PrefixStep<T>(s: seq<T>, i: nat)
    requires i < |s|
    ensures s[..i + 1] == s[..i] + [s[i]]
  {
  }

  lemma FullPrefix<T>(s: seq<T>)
    ensures s[..|s|] == s
  {
  }

  /** The joints iterate_bodies adds for one body: each declared joint that
      converts, built with the parent's name and the body's name, and then,
      when the body declares no joint and has no freejoint, a fixed joint. */
  method AddBodyJoints(body: MjcfBody, model: SdfModel, parentName: Option<string>, converts: JointFilter)
    requires model.Valid()
    modifies model
    ensures model.Valid()
    ensures model.log == old(model.log) + JointEvents(BodyJoints(body, parentName, converts))
    ensures model.name == old(model.name) && model.isStatic == old(model.isStatic)
  {
    for k := 0 to |body.joints|
      invariant model.Valid()
      invariant model.log == old(model.log) + JointEvents(ConvertedJoints(body.joints[..k], parentName, body.name, converts))
      invariant model.name == old(model.name) && model.isStatic == old(model.isStatic)
    {
      var joint := body.joints[k];
      ghost var done := ConvertedJoints(body.joints[..k], parentName, body.name, converts);
      ConvertedJointsStep(body.joints, k, parentName, body.name, converts);
      if converts(joint, parentName, body.name) {
        var added := ConvertedJoint(joint, parentName, body.name);
        ghost var je := JointEvents(done);
        model.AddJoint(added);
        assert model.log == (old(model.log) + je) + [JointAdded(added)];
        SeqAppendAssoc(old(model.log), je, [JointAdded(added)]);
        JointEventsStep(done, added);
      } else {
        assert done + [] == done;
      }
    }
    FullPrefix(body.joints);
    ghost var converted := ConvertedJoints(body.joints, parentName, body.name, converts);
    if |body.joints| == 0 && !body.hasFreejoint {
      var fixed := FixedJoint(parentName, body.name);
      ghost var je := JointEvents(converted);
      model.AddJoint(fixed);
      assert model.log == (old(model.log) + je) + [JointAdded(fixed)];
      SeqAppendAssoc(old(model.log), je, [JointAdded(fixed)]);
      JointEventsStep(converted, fixed);
    } else {
      assert converted + [] == converted;
    }
  }

  /** The nested iterate_bodies: for each body in order, add its joints
      (AddBodyJoints), its link, and then, with its name as the parent name,
      its children. The link is built by mjcf_body_to_sdf from the body and
      its parent's name. */
  method IterateBodies(bodies: seq<MjcfBody>, model: SdfModel, parentName: Option<string>, converts: JointFilter)
    requires model.Valid()
    modifies model
    ensures model.Valid()
    ensures model.log == old(model.log) + ForestTrace(bodies, parentName, converts)
    ensures model.name == old(model.name) && model.isStatic == old(model.isStatic)
    decreases bodies
  {
    for i := 0 to |bodies|
      invariant model.Valid()
      invariant model.log == old(model.log) + ForestTrace(bodies[..i], parentName, converts)
      invariant model.name == old(model.name) && model.isStatic == old(model.isStatic)
    {
      var body := bodies[i];
      ghost var before := model.log;
      var link := BodyLink(body.name, parentName);
      AddBodyJoints(body, model, parentName, converts);
      ghost var je := JointEvents(BodyJoints(body, parentName, converts));
      model.AddLink(link);
      assert model.log == (before + je) + [LinkAdded(link)];
      SeqAppendAssoc(before, je, [LinkAdded(link)]);
      assert model.log == before + BodyEvents(body, parentName, converts);
      ghost var mid := model.log;
      IterateBodies(body.children, model, body.name, converts);
      assert model.log == mid + ForestTrace(body.children, body.name, converts);
      SeqAppendAssoc(before, BodyEvents(body, parentName, converts), ForestTrace(body.children, body.name, converts));
      assert model.log == before + SubtreeTrace(body, parentName, converts);
      ForestTraceStep(bodies, i, parentName, converts);
      SeqAppendAssoc(old(model.log), ForestTrace(bodies[..i], parentName, converts), SubtreeTrace(body, parentName, converts));
    }
    FullPrefix(bodies);
  }

  /** The option element's block of mjcf_worldbody_to_sdf: a gravity flag
      of "disable" zeroes gravity, otherwise a set gravity is copied; a set
      magnetic field and a set wind are copied; nothing else changes. */
  method ApplyOption(world: SdfWorld, option: Option<MjcfOption>)
    modifies world
    ensures world.gravity == GravityAfter(old(world.gravity), option)
    ensures world.magneticField == MagneticAfter(old(world.magneticField), option)
    ensures world.windLinearVelocity == WindAfter(old(world.windLinearVelocity), option)
    ensures world.models == old(world.models) && world.plugins == old(world.plugins)
  {
    if option.Some? {
      var o := option.value;
      if o.gravityFlag == Some("disable") {
        world.SetGravity(Vec3(0.0, 0.0, 0.0));
      } else if o.gravity.Some? {
        world.SetGravity(o.gravity.value);
      }
      if o.magnetic.Some? {
        world.SetMagneticField(o.magnetic.value);
      }
      if o.wind.Some? {
        world.SetWindLinearVelocity(o.wind.value);
      }
    }
  }

  /** The export_world_plugins block: one plugin per table entry, in order. */
  method AddSystemPlugins(world: SdfWorld)
    modifies world
    ensures world.plugins == old(world.plugins) + SystemPlugins
    ensures world.models == old(world.models) && world.gravity == old(world.gravity)
    ensures world.magneticField == old(world.magneticField)
    ensures world.windLinearVelocity == old(world.windLinearVelocity)
  {
    for i := 0 to |SystemPlugins|
      invariant world.plugins == old(world.plugins) + SystemPlugins[..i]
      invariant world.models == old(world.models) && world.gravity == old(world.gravity)
      invariant world.magneticField == old(world.magneticField)
      invariant world.windLinearVelocity == old(world.windLinearVelocity)
    {
      PrefixStep(SystemPlugins, i);
      world.AddPlugin(SystemPlugins[i]);
    }
    FullPrefix(SystemPlugins);
  }

  /** The plugins added for a value of the export flag: the whole table or
      none. */
  function ExportedPlugins(exportWorldPlugins: bool): (ps: seq<Plugin>)
    ensures exportWorldPlugins ==> ps == SystemPlugins
    ensures !exportWorldPlugins ==> ps == []
  {
    if exportWorldPlugins then SystemPlugins else []
  }

  /** The model the worldbody becomes: static, holding only the world link. */
  function StaticModel(staticName: string): (m: ModelValue)
    ensures m.isStatic && m.links == [WorldLink] && m.joints == []
  {
    ModelValue(staticName, true, [WorldLink], [])
  }

  /** The articulated model: named by the root's model attribute, or
      "model" when it has none, not static, and holding the links and joints
      of the walk over the bodies under worldbody, started with no parent. */
  function ArticulatedModel(root: MjcfRoot, converts: JointFilter): (m: ModelValue)
    ensures m.name == (if root.model.Some? then root.model.value else "model") && !m.isStatic
  {
    var trace := ForestTrace(root.worldBodies, None, converts);
    ModelValue(if root.model.Some? then root.model.value else "model", false, LinksIn(trace), JointsIn(trace))
  }

  /** The static part of mjcf_worldbody_to_sdf: a new model named
      staticName, given the worldbody's link, marked static and added to the
      world. The name comes from su.find_unique_name. */
  method AddStaticModel(world: SdfWorld, staticName: string)
    modifies world
    ensures world.models == old(world.models) + [StaticModel(staticName)]
    ensures world.plugins == old(world.plugins) && world.gravity == old(world.gravity)
    ensures world.magneticField == old(world.magneticField)
    ensures world.windLinearVelocity == old(world.windLinearVelocity)
  {
    var modelStatic := new SdfModel();
    var link := WorldLink;
    modelStatic.SetName(staticName);
    modelStatic.AddLink(link);
    modelStatic.SetStatic(true);
    assert modelStatic.Value() == StaticModel(staticName);
    world.AddModel(modelStatic.Value());
  }

  /** mjcf_worldbody_to_sdf. The worldbody becomes a static model, added
      first; the option element sets gravity, magnetic field and wind; the
      bodies under worldbody are walked into the articulated model, which
      is added last. */
  method WorldbodyToSdf(root: MjcfRoot, world: SdfWorld, exportWorldPlugins: bool,
                        staticName: string, converts: JointFilter)
    modifies world
    ensures world.models == old(world.models) + [StaticModel(staticName), ArticulatedModel(root, converts)]
    ensures world.plugins == old(world.plugins) + ExportedPlugins(exportWorldPlugins)
    ensures world.gravity == GravityAfter(old(world.gravity), root.option)
    ensures world.magneticField == MagneticAfter(old(world.magneticField), root.option)
    ensures world.windLinearVelocity == WindAfter(old(world.windLinearVelocity), root.option)
  {
    var model := new SdfModel();
    if root.model.Some? {
      model.SetName(root.model.value);
    } else {
      model.SetName("model");
    }

    AddStaticModel(world, staticName);
    ghost var afterStatic := world.models;

    ApplyOption(world, root.option);

    IterateBodies(root.worldBodies, model, None, converts);
    ghost var trace := ForestTrace(root.worldBodies, None, converts);
    assert model.log == trace;
    assert model.Value() == ArticulatedModel(root, converts);

    if exportWorldPlugins {
      AddSystemPlugins(world);
    } else {
      assert world.plugins == old(world.plugins) + ExportedPlugins(false);
    }

    world.AddModel(model.Value());
    assert world.models == afterStatic + [ArticulatedModel(root, converts)];
  }
}

/** The MJCF body tree and what iterate_bodies adds to the articulated
    SDFormat model for it, as functions: the sequence of add_joint and
    add_link calls, and the pre-order list of (body, parent name) visits it
    follows. */
module KinematicTree {
  import opened Base

  datatype MjcfJoint = MjcfJoint(name: Option<string>, jointType: Option<string>)

  /** An MJCF body: its name (None when unnamed), its declared joints, whether
      it has a freejoint, and its child bodies in source order. */
  datatype MjcfBody = MjcfBody(
    name: Option<string>,
    joints: seq<MjcfJoint>,
    hasFreejoint: bool,
    children: seq<MjcfBody>)

  /** The joints and links the walk adds. Their converters
      (mjcf_joint_to_sdf, add_fixed_joint, mjcf_body_to_sdf) are not part of
      this model, so each element is identified by the arguments it was
      built from. */
  datatype SdfJoint =
    | ConvertedJoint(source: MjcfJoint, parent: Option<string>, child: Option<string>)
    | FixedJoint(parent: Option<string>, child: Option<string>)

  datatype SdfLink = BodyLink(name: Option<string>, parent: Option<string>) | WorldLink

  /** One call on the model: add_joint or add_link. */
  datatype Event = JointAdded(joint: SdfJoint) | LinkAdded(link: SdfLink)

  /** Whether mjcf_joint_to_sdf(joint, parent, child) returns a joint rather
      than None. */
  type JointFilter = (MjcfJoint, Option<string>, Option<string>) -> bool

  /** The joints of a model whose calls were `log`, in order. */
  function JointsIn(log: seq<Event>): seq<SdfJoint>
  {
    if log == [] then []
    else JointsIn(log[..|log| - 1]) + (if log[|log| - 1].JointAdded? then [log[|log| - 1].joint] else [])
  }

  /** The links of a model whose calls were `log`, in order. */
  function LinksIn(log: seq<Event>): seq<SdfLink>
  {
    if log == [] then []
    else LinksIn(log[..|log| - 1]) + (if log[|log| - 1].LinkAdded? then [log[|log| - 1].link] else [])
  }

  /** One add_joint call per joint, in order. */
  function JointEvents(js: seq<SdfJoint>): seq<Event>
  {
    if js == [] then [] else JointEvents(js[..|js| - 1]) + [JointAdded(js[|js| - 1])]
  }

  /** The declared joints of one body that convert, each built with the
      immediate parent's name and the body's own name. */
  function ConvertedJoints(js: seq<MjcfJoint>, parent: Option<string>, child: Option<string>,
                           converts: JointFilter): seq<SdfJoint>
  {
    if js == [] then []
    else
      var last := js[|js| - 1];
      ConvertedJoints(js[..|js| - 1], parent, child, converts)
      + (if converts(last, parent, child) then [ConvertedJoint(last, parent, child)] else [])
  }

  /** The joints added for one body: its converted joints, or, when it
      declares none and has no freejoint, one synthesised fixed joint. */
  function BodyJoints(b: MjcfBody, parent: Option<string>, converts: JointFilter): seq<SdfJoint>
  {
    ConvertedJoints(b.joints, parent, b.name, converts)
    + (if |b.joints| == 0 && !b.hasFreejoint then [FixedJoint(parent, b.name)] else [])
  }

  /** The calls made for one body, before its children: its joints, then
      its link. */
  function BodyEvents(b: MjcfBody, parent: Option<string>, converts: JointFilter): seq<Event>
  {
    JointEvents(BodyJoints(b, parent, converts)) + [LinkAdded(BodyLink(b.name, parent))]
  }

  /** iterate_bodies on one body: the body's calls, then its children's
      subtrees with the body's name as their parent name. */
  function SubtreeTrace(b: MjcfBody, parent: Option<string>, converts: JointFilter): seq<Event>
    decreases b
  {
    BodyEvents(b, parent, converts) + ForestTrace(b.children, b.name, converts)
  }

  /** iterate_bodies on a list of sibling bodies, in source order. */
  function ForestTrace(bs: seq<MjcfBody>, parent: Option<string>, converts: JointFilter): seq<Event>
    decreases bs
  {
    if bs == [] then []
    else ForestTrace(bs[..|bs| - 1], parent, converts) + SubtreeTrace(bs[|bs| - 1], parent, converts)
  }

  // -----------------------------------------------------------------------
  // The pre-order visit list, an independent description of the walk

  datatype Visit = Visit(body: MjcfBody, parent: Option<string>)

  function SubtreeVisits(b: MjcfBody, parent: Option<string>): seq<Visit>
    decreases b
  {
    [Visit(b, parent)] + ForestVisits(b.children, b.name)
  }

  /** Every body of the forest paired with the name it is given as parent,
      each body before its descendants, siblings in source order. */
  function ForestVisits(bs: seq<MjcfBody>, parent: Option<string>): seq<Visit>
    decreases bs
  {
    if bs == [] then [] else ForestVisits(bs[..|bs| - 1], parent) + SubtreeVisits(bs[|bs| - 1], parent)
  }

  /** The calls made for a list of visits, one block per visit. */
  function VisitEvents(vs: seq<Visit>, converts: JointFilter): seq<Event>
  {
    if vs == [] then []
    else VisitEvents(vs[..|vs| - 1], converts) + BodyEvents(vs[|vs| - 1].body, vs[|vs| - 1].parent, converts)
  }

  /** The joints added for a list of visits. */
  function VisitJoints(vs: seq<Visit>, converts: JointFilter): seq<SdfJoint>
  {
    if vs == [] then []
    else VisitJoints(vs[..|vs| - 1], converts) + BodyJoints(vs[|vs| - 1].body, vs[|vs| - 1].parent, converts)
  }

  function BodyCount(b: MjcfBody): nat
    decreases b
  {
    1 + ForestCount(b.children)
  }

  /** The number of bodies in a forest, all levels included. */
  function ForestCount(bs: seq<MjcfBody>): nat
    decreases bs
  {
    if bs == [] then 0 else ForestCount(bs[..|bs| - 1]) + BodyCount(bs[|bs| - 1])
  }

  /** Each visit names as parent either the walk's starting parent, for a
      top-level body, or the name of an earlier-visited body that has a body
      equal to it among its direct children. */
  ghost predicate ParentsThreaded(vs: seq<Visit>, bs: seq<MjcfBody>, parent: Option<string>)
  {
    forall i :: 0 <= i < |vs| ==>
      (vs[i].body in bs && vs[i].parent == parent)
      || exists j :: 0 <= j < i && vs[i].body in vs[j].body.children && vs[i].parent == vs[j].body.name
  }

  // -----------------------------------------------------------------------
  // Lemmas

  lemma {:induction false} JointsInAppend(a: seq<Event>, b: seq<Event>)
    ensures JointsIn(a + b) == JointsIn(a) + JointsIn(b)
    decreases |b|
  {
    if b != [] {
      var b' := b[..|b| - 1];
      assert (a + b)[..|a + b| - 1] == a + b';
      JointsInAppend(a, b');
    } else {
      assert a + b == a;
    }
  }

  lemma {:induction false} LinksInAppend(a: seq<Event>, b: seq<Event>)
    ensures LinksIn(a + b) == LinksIn(a) + LinksIn(b)
    decreases |b|
  {
    if b != [] {
      var b' := b[..|b| - 1];
      assert (a + b)[..|a + b| - 1] == a + b';
      LinksInAppend(a, b');
    } else {
      assert a + b == a;
    }
  }

  /** A block of joint calls adds those joints and no link. */
  lemma {:induction false} JointEventsContents(js: seq<SdfJoint>)
    ensures JointsIn(JointEvents(js)) == js
    ensures LinksIn(JointEvents(js)) == []
    decreases |js|
  {
    if js != [] {
      var e := JointEvents(js);
      assert e[..|e| - 1] == JointEvents(js[..|js| - 1]);
      JointEventsContents(js[..|js| - 1]);
    }
  }

  /** Every joint added for a body's declared joints comes from one of them
      and joins the immediate parent's name to the body's name; every
      declared joint that converts is added, and the others are dropped. */
  lemma {:induction false} ConvertedJointsContents(js: seq<MjcfJoint>, parent: Option<string>, child: Option<string>,
                                                   converts: JointFilter)
    ensures var r := ConvertedJoints(js, parent, child, converts);
      && |r| <= |js|
      && (forall i :: 0 <= i < |r| ==>
            r[i].ConvertedJoint? && r[i].source in js && converts(r[i].source, parent, child)
            && r[i].parent == parent && r[i].child == child)
      && (forall j :: j in js && converts(j, parent, child) ==> ConvertedJoint(j, parent, child) in r)
    decreases |js|
  {
    if js != [] {
      var init, last := js[..|js| - 1], js[|js| - 1];
      assert js == init + [last];
      ConvertedJointsContents(init, parent, child, converts);
      var r, ri := ConvertedJoints(js, parent, child, converts), ConvertedJoints(init, parent, child, converts);
      var tail := if converts(last, parent, child) then [ConvertedJoint(last, parent, child)] else [];
      assert r == ri + tail;
      forall i | 0 <= i < |r|
        ensures r[i].ConvertedJoint? && r[i].source in js && converts(r[i].source, parent, child)
          && r[i].parent == parent && r[i].child == child
      {
        if i < |ri| {
          assert r[i] == ri[i];
        } else {
          assert r[i] == ConvertedJoint(last, parent, child);
        }
      }
      forall j | j in js && converts(j, parent, child)
        ensures ConvertedJoint(j, parent, child) in r
      {
        if j in init {
          assert ConvertedJoint(j, parent, child) in ri;
        } else {
          assert j == last;
          assert r[|r| - 1] == ConvertedJoint(j, parent, child);
        }
      }
    }
  }

  /** A body with no joints and no freejoint gets exactly one fixed joint
      from its parent's name to its own; a freejoint and no joints give
      none; declared joints give only converted joints; every joint joins
      the parent's name to the body's. */
  lemma BodyJointsContents(b: MjcfBody, parent: Option<string>, converts: JointFilter)
    ensures var r := BodyJoints(b, parent, converts);
      && (forall i :: 0 <= i < |r| ==> r[i].parent == parent && r[i].child == b.name)
      && (b.joints == [] && !b.hasFreejoint ==> r == [FixedJoint(parent, b.name)])
      && (b.joints == [] && b.hasFreejoint ==> r == [])
      && (b.joints != [] ==> r == ConvertedJoints(b.joints, parent, b.name, converts))
  {
    ConvertedJointsContents(b.joints, parent, b.name, converts);
    var r, c := BodyJoints(b, parent, converts), ConvertedJoints(b.joints, parent, b.name, converts);
    if b.joints == [] {
      assert c == [];
    } else {
      assert r == c + [];
    }
    forall i | 0 <= i < |r|
      ensures r[i].parent == parent && r[i].child == b.name
    {
      if i < |c| {
        assert r[i] == c[i];
      }
    }
  }

  /** One body's block adds its joints and then exactly its link. */
  lemma BodyEventsContents(b: MjcfBody, parent: Option<string>, converts: JointFilter)
    ensures JointsIn(BodyEvents(b, parent, converts)) == BodyJoints(b, parent, converts)
    ensures LinksIn(BodyEvents(b, parent, converts)) == [BodyLink(b.name, parent)]
  {
    var je := JointEvents(BodyJoints(b, parent, converts));
    var le := [LinkAdded(BodyLink(b.name, parent))];
    JointEventsContents(BodyJoints(b, parent, converts));
    JointsInAppend(je, le);
    LinksInAppend(je, le);
    assert le[..0] == [];
  }

  lemma {:induction false} VisitEventsAppend(a: seq<Visit>, b: seq<Visit>, converts: JointFilter)
    ensures VisitEvents(a + b, converts) == VisitEvents(a, converts) + VisitEvents(b, converts)
    decreases |b|
  {
    if b != [] {
      var b' := b[..|b| - 1];
      assert (a + b)[..|a + b| - 1] == a + b';
      VisitEventsAppend(a, b', converts);
    } else {
      assert a + b == a;
    }
  }

  lemma {:induction false} ForestVisitsAppend(a: seq<MjcfBody>, b: seq<MjcfBody>, parent: Option<string>)
    ensures ForestVisits(a + b, parent) == ForestVisits(a, parent) + ForestVisits(b, parent)
    decreases |b|
  {
    if b != [] {
      var b' := b[..|b| - 1];
      assert (a + b)[..|a + b| - 1] == a + b';
      ForestVisitsAppend(a, b', parent);
    } else {
      assert a + b == a;
    }
  }

  /** The step a loop over a prefix of the joints takes. */
  lemma ConvertedJointsStep(js: seq<MjcfJoint>, k: nat, parent: Option<string>, child: Option<string>, converts: JointFilter)
    requires k < |js|
    ensures ConvertedJoints(js[..k + 1], parent, child, converts)
      == ConvertedJoints(js[..k], parent, child, converts)
         + (if converts(js[k], parent, child) then [ConvertedJoint(js[k], parent, child)] else [])
  {
    assert js[..k + 1][..k] == js[..k];
  }

  lemma JointEventsStep(js: seq<SdfJoint>, j: SdfJoint)
    ensures JointEvents(js + [j]) == JointEvents(js) + [JointAdded(j)]
  {
    assert (js + [j])[..|js|] == js;
  }

  /** The step a loop over a prefix of sibling bodies takes. */
  lemma ForestTraceStep(bs: seq<MjcfBody>, i: nat, parent: Option<string>, converts: JointFilter)
    requires i < |bs|
    ensures ForestTrace(bs[..i + 1], parent, converts)
      == ForestTrace(bs[..i], parent, converts) + SubtreeTrace(bs[i], parent, converts)
  {
    assert bs[..i + 1][..i] == bs[..i];
  }

  /** Siblings follow source order: the calls for a list of sibling bodies
      are the calls for a prefix of them followed by those for the rest. */
  lemma ForestTraceAppend(a: seq<MjcfBody>, b: seq<MjcfBody>, parent: Option<string>, converts: JointFilter)
    ensures ForestTrace(a + b, parent, converts) == ForestTrace(a, parent, converts) + ForestTrace(b, parent, converts)
  {
    ForestTraceFollowsVisits(a + b, parent, converts);
    ForestTraceFollowsVisits(a, parent, converts);
    ForestTraceFollowsVisits(b, parent, converts);
    ForestVisitsAppend(a, b, parent);
    VisitEventsAppend(ForestVisits(a, parent), ForestVisits(b, parent), converts);
  }

  /** The walk makes, for each visit in pre-order, its body's joint calls
      and then its link call. */
  lemma {:induction false} SubtreeTraceFollowsVisits(b: MjcfBody, parent: Option<string>, converts: JointFilter)
    ensures SubtreeTrace(b, parent, converts) == VisitEvents(SubtreeVisits(b, parent), converts)
    decreases b, 1
  {
    var v, rest := Visit(b, parent), ForestVisits(b.children, b.name);
    ForestTraceFollowsVisits(b.children, b.name, converts);
    VisitEventsAppend([v], rest, converts);
    assert [v][..0] == [];
    assert VisitEvents([v], converts) == BodyEvents(b, parent, converts);
    assert SubtreeTrace(b, parent, converts) == BodyEvents(b, parent, converts) + VisitEvents(rest, converts);
  }

  lemma {:induction false} ForestTraceFollowsVisits(bs: seq<MjcfBody>, parent: Option<string>, converts: JointFilter)
    ensures ForestTrace(bs, parent, converts) == VisitEvents(ForestVisits(bs, parent), converts)
    decreases bs, 0
  {
    if bs != [] {
      var init, last := bs[..|bs| - 1], bs[|bs| - 1];
      ForestTraceFollowsVisits(init, parent, converts);
      SubtreeTraceFollowsVisits(last, parent, converts);
      VisitEventsAppend(ForestVisits(init, parent), SubtreeVisits(last, parent), converts);
    }
  }

  /** The calls for a list of visits add one link per visit, in visit
      order, and the visits' joints. */
  lemma {:induction false} VisitEventsContents(vs: seq<Visit>, converts: JointFilter)
    ensures |LinksIn(VisitEvents(vs, converts))| == |vs|
    ensures forall i :: 0 <= i < |vs| ==>
      LinksIn(VisitEvents(vs, converts))[i] == BodyLink(vs[i].body.name, vs[i].parent)
    ensures JointsIn(VisitEvents(vs, converts)) == VisitJoints(vs, converts)
    decreases |vs|
  {
    if vs != [] {
      var init, last := vs[..|vs| - 1], vs[|vs| - 1];
      var ei, el := VisitEvents(init, converts), BodyEvents(last.body, last.parent, converts);
      assert VisitEvents(vs, converts) == ei + el;
      VisitEventsContents(init, converts);
      BodyEventsContents(last.body, last.parent, converts);
      LinksInAppend(ei, el);
      JointsInAppend(ei, el);
      var links := LinksIn(VisitEvents(vs, converts));
      assert links == LinksIn(ei) + [BodyLink(last.body.name, last.parent)];
      forall i | 0 <= i < |vs|
        ensures links[i] == BodyLink(vs[i].body.name, vs[i].parent)
      {
        if i < |init| {
          assert vs[i] == init[i];
        }
      }
    }
  }

  /** The links of the walk are one link per body, in pre-order, each built
      with the parent name its visit carries; the joints are the visited
      bodies' joints in the same order. */
  lemma WalkContents(bs: seq<MjcfBody>, parent: Option<string>, converts: JointFilter)
    ensures var links, vs := LinksIn(ForestTrace(bs, parent, converts)), ForestVisits(bs, parent);
      |links| == |vs| && forall i :: 0 <= i < |vs| ==> links[i] == BodyLink(vs[i].body.name, vs[i].parent)
    ensures JointsIn(ForestTrace(bs, parent, converts)) == VisitJoints(ForestVisits(bs, parent), converts)
  {
    ForestTraceFollowsVisits(bs, parent, converts);
    VisitEventsContents(ForestVisits(bs, parent), converts);
  }

  lemma {:induction false} SubtreeVisitCount(b: MjcfBody, parent: Option<string>)
    ensures |SubtreeVisits(b, parent)| == BodyCount(b)
    decreases b, 1
  {
    ForestVisitCount(b.children, b.name);
  }

  /** The walk makes as many visits as the forest has bodies. */
  lemma {:induction false} ForestVisitCount(bs: seq<MjcfBody>, parent: Option<string>)
    ensures |ForestVisits(bs, parent)| == ForestCount(bs)
    decreases bs, 0
  {
    if bs != [] {
      ForestVisitCount(bs[..|bs| - 1], parent);
      SubtreeVisitCount(bs[|bs| - 1], parent);
    }
  }

  /** The number of links the walk adds equals the number of bodies. */
  lemma LinkCount(bs: seq<MjcfBody>, parent: Option<string>, converts: JointFilter)
    ensures |LinksIn(ForestTrace(bs, parent, converts))| == ForestCount(bs)
  {
    WalkContents(bs, parent, converts);
    ForestVisitCount(bs, parent);
  }

  /** The k-th top-level body is visited right after the bodies of its
      earlier siblings' subtrees, and is given the walk's starting parent. */
  lemma ForestVisitPosition(bs: seq<MjcfBody>, parent: Option<string>, k: nat)
    requires k < |bs|
    ensures ForestCount(bs[..k]) < |ForestVisits(bs, parent)|
    ensures ForestVisits(bs, parent)[ForestCount(bs[..k])] == Visit(bs[k], parent)
  {
    var pre, rest := bs[..k], bs[k + 1..];
    assert bs == pre + ([bs[k]] + rest);
    assert [bs[k]][..0] == [];
    assert ForestVisits([bs[k]], parent) == [] + SubtreeVisits(bs[k], parent);
    ForestVisitsAppend([bs[k]], rest, parent);
    ForestVisitsAppend(pre, [bs[k]] + rest, parent);
    ForestVisitCount(pre, parent);
    var tail := ForestVisits([bs[k]] + rest, parent);
    assert tail[0] == Visit(bs[k], parent);
    assert ForestVisits(bs, parent) == ForestVisits(pre, parent) + tail;
  }

  /** The k-th direct child of a body is visited at the position that
      follows the body itself and its earlier children's subtrees, and is
      given that body's name as parent. */
  lemma ChildVisitPosition(b: MjcfBody, parent: Option<string>, k: nat)
    requires k < |b.children|
    ensures 1 + ForestCount(b.children[..k]) < |SubtreeVisits(b, parent)|
    ensures SubtreeVisits(b, parent)[1 + ForestCount(b.children[..k])] == Visit(b.children[k], b.name)
  {
    ForestVisitPosition(b.children, b.name, k);
  }

  /** Every visited body is given the walk's starting parent if it is
      top-level, and otherwise the name of an earlier-visited body that has
      it (as a value) among its direct children. ForestVisitPosition and
      ChildVisitPosition fix the positions exactly. */
  lemma {:induction false} ParentThreading(bs: seq<MjcfBody>, parent: Option<string>)
    ensures ParentsThreaded(ForestVisits(bs, parent), bs, parent)
    decreases bs
  {
    if bs != [] {
      var init, last := bs[..|bs| - 1], bs[|bs| - 1];
      var a := ForestVisits(init, parent);
      var c := ForestVisits(last.children, last.name);
      var vs := ForestVisits(bs, parent);
      assert vs == a + SubtreeVisits(last, parent);
      assert SubtreeVisits(last, parent) == [Visit(last, parent)] + c;
      ParentThreading(init, parent);
      ParentThreading(last.children, last.name);
      forall i | 0 <= i < |vs|
        ensures (vs[i].body in bs && vs[i].parent == parent)
          || exists j :: 0 <= j < i && vs[i].body in vs[j].body.children && vs[i].parent == vs[j].body.name
      {
        if i < |a| {
          assert vs[i] == a[i];
          if !(a[i].body in init && a[i].parent == parent) {
            var j :| 0 <= j < i && a[i].body in a[j].body.children && a[i].parent == a[j].body.name;
            assert vs[j] == a[j];
          }
        } else if i == |a| {
          assert vs[i] == Visit(last, parent);
        } else {
          var k := i - |a| - 1;
          assert vs[i] == c[k];
          if c[k].body in last.children && c[k].parent == last.name {
            assert vs[|a|] == Visit(last, parent);
          } else {
            var j :| 0 <= j < k && c[k].body in c[j].body.children && c[k].parent == c[j].body.name;
            assert vs[|a| + 1 + j] == c[j];
          }
        }
      }
    }
  }

  /** A childless body without joints or freejoint adds one fixed joint and
      its link, and nothing for children. */
  lemma RigidLeaf(b: MjcfBody, parent: Option<string>, converts: JointFilter)
    requires b.joints == [] && !b.hasFreejoint && b.children == []
    ensures SubtreeTrace(b, parent, converts) == BodyEvents(b, parent, converts)
    ensures JointsIn(BodyEvents(b, parent, converts)) == [FixedJoint(parent, b.name)]
    ensures LinksIn(BodyEvents(b, parent, converts)) == [BodyLink(b.name, parent)]
  {
    BodyEventsContents(b, parent, converts);
    BodyJointsContents(b, parent, converts);
    assert SubtreeTrace(b, parent, converts) == BodyEvents(b, parent, converts) + [];
  }

  /** Two childless top-level bodies without joints or freejoint give two
      links and two fixed joints attached to the world (parent None). */
  lemma TwoRigidBodies(b1: MjcfBody, b2: MjcfBody, converts: JointFilter)
    requires b1.joints == [] && !b1.hasFreejoint && b1.children == []
    requires b2.joints == [] && !b2.hasFreejoint && b2.children == []
    ensures JointsIn(ForestTrace([b1, b2], None, converts)) == [FixedJoint(None, b1.name), FixedJoint(None, b2.name)]
    ensures LinksIn(ForestTrace([b1, b2], None, converts)) == [BodyLink(b1.name, None), BodyLink(b2.name, None)]
  {
    var e1, e2 := BodyEvents(b1, None, converts), BodyEvents(b2, None, converts);
    RigidLeaf(b1, None, converts);
    RigidLeaf(b2, None, converts);
    assert [b1, b2][..1] == [b1] && [b1][..0] == [];
    assert ForestTrace([b1], None, converts) == [] + e1;
    assert ForestTrace([b1, b2], None, converts) == e1 + e2;
    JointsInAppend(e1, e2);
    LinksInAppend(e1, e2);
  }

  /** An unnamed body hands its children the parent name None, the name
      top-level bodies get: the fixed joint of a rigid child of an unnamed
      body with a freejoint is the same joint, FixedJoint(None, c.name), as
      that of the same child placed directly under the worldbody. */
  lemma UnnamedParentLooksLikeWorld(c: MjcfBody, converts: JointFilter)
    requires c.joints == [] && !c.hasFreejoint && c.children == []
    ensures JointsIn(ForestTrace([MjcfBody(None, [], true, [c])], None, converts)) == [FixedJoint(None, c.name)]
    ensures JointsIn(ForestTrace([c], None, converts)) == [FixedJoint(None, c.name)]
  {
    var p := MjcfBody(None, [], true, [c]);
    var ep, ec := BodyEvents(p, None, converts), BodyEvents(c, None, converts);
    RigidLeaf(c, None, converts);
    BodyEventsContents(p, None, converts);
    BodyJointsContents(p, None, converts);
    assert [c][..0] == [] && [p][..0] == [];
    assert ForestTrace([c], None, converts) == [] + ec;
    assert SubtreeTrace(p, None, converts) == ep + ec;
    assert ForestTrace([p], None, converts) == ep + ec;
    assert JointsIn(ep) == [];
    JointsInAppend(ep, ec);
    assert JointsIn(ep + ec) == [] + [FixedJoint(None, c.name)];
  }
}

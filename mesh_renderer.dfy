/**
 * The module-level state of src/mesh.ts as one renderer object: whether
 * the scene exists, whether the camera has been placed (`t.initialized`),
 * the mesh registry, the face triangulation and texture map handed to
 * `init`, the one-time face vertex data, and the camera's final target
 * and position.
 *
 * The methods follow the source's statements; each is tied to a function
 * of the state before the call, and the properties of `drawPath`,
 * `drawHead`, `drawFace` and the camera are proved about those functions
 * in modules Mesh and MeshFace.
 */
module MeshRenderer {
  import opened Wrappers
  import opened Human
  import opened Geometry
  import opened Paths
  import opened Mesh
  import opened MeshFace
  import Buffers

  /** The part of the renderer a frame changes. */
  datatype State = State(initialized: bool, target: Vec3, position: Vec3, meshes: Registry, vertexData: Option<VertexData>)

  /** The first draw of a scene places the camera on the given points and
      marks the scene initialized; later draws leave the camera alone. */
  function Framed(s: State, pts: seq<Point>): State
  {
    if s.initialized then s
    else s.(initialized := true, target := CameraTarget(pts), position := CameraPosition(pts))
  }

  /** `drawBody`: the camera placed on the scored raw keypoints when not yet
      initialized, then the parts and the head; false when it throws. */
  function BodyFrame(distance: Distance, s: State, body: BodyResult, width: Dim, height: Dim): (State, bool)
  {
    var f := Framed(s, ScoredRaw(body.keypoints));
    var (m, ok) := BodyStep(distance, f.meshes, body, width, height);
    (f.(meshes := m), ok)
  }

  /** `drawHand`: the camera placed on the scaled keypoints when not yet
      initialized, then the parts of two or more visible points. */
  function HandFrame(distance: Distance, s: State, hand: HandResult, width: Dim, height: Dim): State
  {
    var f := Framed(s, HandRaw(hand.keypoints, width, height));
    f.(meshes := HandPaths(distance, f.meshes, HandEntries(hand.annotations, width, height)))
  }

  /** `drawFace`: the camera placed on the raw mesh when not yet
      initialized, then the face, irises and extra landmarks. */
  function FaceFrame(s: State, face: FaceResult, tri: seq<int>, uv: seq<(real, real)>): State
  {
    var f := Framed(s, face.meshRaw);
    var (m, d) := FaceStep(f.meshes, f.vertexData, face.meshRaw, tri, uv);
    f.(meshes := m, vertexData := d)
  }

  /** `draw`: the first body, hand and face of a result in that order, each
      when present; a body that throws ends the frame. */
  function DrawFrame(distance: Distance, s: State, result: Result, width: Dim, height: Dim,
    tri: seq<int>, uv: seq<(real, real)>): (State, bool)
  {
    var b := if |result.body| > 0 then BodyFrame(distance, s, result.body[0], width, height) else (s, true);
    if !b.1 then b
    else
      var h := if |result.hand| > 0 then HandFrame(distance, b.0, result.hand[0], width, height) else b.0;
      (if |result.face| > 0 then FaceFrame(h, result.face[0], tri, uv) else h, true)
  }

  /** Only the first framing counts: once placed, the camera stays where it
      is for every later model and frame, and the registry and vertex data
      are never touched by framing. */
  lemma FramedOnce(s: State, pts: seq<Point>, later: seq<Point>)
    ensures Framed(s, pts).initialized
    ensures Framed(Framed(s, pts), later) == Framed(s, pts)
    ensures Framed(s, pts).meshes == s.meshes && Framed(s, pts).vertexData == s.vertexData
    ensures !s.initialized ==> Framed(s, pts).target == CameraTarget(pts) && Framed(s, pts).position == CameraPosition(pts)
    ensures s.initialized ==> Framed(s, pts) == s
  {
  }

  /** After a frame with any model in it the scene is initialized. On the
      first frame the camera is placed on the first model present: the
      body's scored raw keypoints, else the hand's scaled keypoints, else
      the face mesh. */
  lemma DrawFrameFrames(distance: Distance, s: State, result: Result, width: Dim, height: Dim,
    tri: seq<int>, uv: seq<(real, real)>)
    ensures var r := DrawFrame(distance, s, result, width, height, tri, uv).0;
      var any := |result.body| > 0 || |result.hand| > 0 || |result.face| > 0;
      (any ==> r.initialized)
      && (!any ==> r == s)
      && (s.initialized ==> r.target == s.target && r.position == s.position)
      && (!s.initialized && |result.body| > 0 ==>
        r.target == CameraTarget(ScoredRaw(result.body[0].keypoints))
        && r.position == CameraPosition(ScoredRaw(result.body[0].keypoints)))
      && (!s.initialized && |result.body| == 0 && |result.hand| > 0 ==>
        r.target == CameraTarget(HandRaw(result.hand[0].keypoints, width, height))
        && r.position == CameraPosition(HandRaw(result.hand[0].keypoints, width, height)))
      && (!s.initialized && |result.body| == 0 && |result.hand| == 0 && |result.face| > 0 ==>
        r.target == CameraTarget(result.face[0].meshRaw) && r.position == CameraPosition(result.face[0].meshRaw))
  {
  }

  /** A body that throws ends the frame: the hand and the face are not
      drawn and the vertex data is untouched, and the frame reports the
      failure. Otherwise the frame completes. */
  lemma DrawFrameStops(distance: Distance, s: State, result: Result, width: Dim, height: Dim,
    tri: seq<int>, uv: seq<(real, real)>)
    ensures var (r, ok) := DrawFrame(distance, s, result, width, height, tri, uv);
      (ok <==> |result.body| == 0 || BodyFrame(distance, s, result.body[0], width, height).1)
      && (!ok ==> r == BodyFrame(distance, s, result.body[0], width, height).0 && r.vertexData == s.vertexData)
  {
  }

  // ---------------------------------------------------------------------
  // The frame as written: `drawPath` throws on a part whose path has grown
  // since it was first seen, and a face mesh recreated after `init` gets
  // no triangulation.

  function BodyFrameAsWritten(distance: Distance, s: State, body: BodyResult, width: Dim, height: Dim): (State, bool)
  {
    var f := Framed(s, ScoredRaw(body.keypoints));
    var (m, ok) := BodyStepAsWritten(distance, f.meshes, body, width, height);
    (f.(meshes := m), ok)
  }

  function HandFrameAsWritten(distance: Distance, s: State, hand: HandResult, width: Dim, height: Dim): (State, bool)
  {
    var f := Framed(s, HandRaw(hand.keypoints, width, height));
    var (m, ok) := HandPathsAsWritten(distance, f.meshes, HandEntries(hand.annotations, width, height));
    (f.(meshes := m), ok)
  }

  function FaceFrameAsWritten(s: State, face: FaceResult, tri: seq<int>, uv: seq<(real, real)>): State
  {
    var f := Framed(s, face.meshRaw);
    var (m, d) := FaceStepAsWritten(f.meshes, f.vertexData, face.meshRaw, tri, uv);
    f.(meshes := m, vertexData := d)
  }

  /** `draw` as written: a throw in the body or in the hand ends the frame,
      since each is awaited. */
  function DrawFrameAsWritten(distance: Distance, s: State, result: Result, width: Dim, height: Dim,
    tri: seq<int>, uv: seq<(real, real)>): (State, bool)
  {
    var b := if |result.body| > 0 then BodyFrameAsWritten(distance, s, result.body[0], width, height) else (s, true);
    if !b.1 then b
    else
      var h := if |result.hand| > 0 then HandFrameAsWritten(distance, b.0, result.hand[0], width, height) else (b.0, true);
      if !h.1 then h
      else (if |result.face| > 0 then FaceFrameAsWritten(h.0, result.face[0], tri, uv) else h.0, true)
  }

  /** As written, the frame completes exactly when neither the body nor the
      hand throws; a throw in either leaves the state that call reached,
      and the face is not drawn. */
  lemma DrawFrameAsWrittenStops(distance: Distance, s: State, result: Result, width: Dim, height: Dim,
    tri: seq<int>, uv: seq<(real, real)>)
    ensures var (r, ok) := DrawFrameAsWritten(distance, s, result, width, height, tri, uv);
      var b := if |result.body| > 0 then BodyFrameAsWritten(distance, s, result.body[0], width, height) else (s, true);
      var h := if |result.hand| > 0 then HandFrameAsWritten(distance, b.0, result.hand[0], width, height) else (b.0, true);
      (ok <==> b.1 && h.1)
      && (!b.1 ==> r == b.0)
      && (b.1 && !h.1 ==> r == h.0)
      && (!ok ==> r.vertexData == s.vertexData)
  {
  }

  /** A body that completes as written is the corrected body; it keeps
      every key, the face mesh included, and never touches the vertex
      data. */
  lemma BodyFrameAsWrittenAgrees(distance: Distance, s: State, body: BodyResult, width: Dim, height: Dim)
    requires BodyFrameAsWritten(distance, s, body, width, height).1
    ensures BodyFrameAsWritten(distance, s, body, width, height) == BodyFrame(distance, s, body, width, height)
    ensures "face" in s.meshes ==> "face" in BodyFrameAsWritten(distance, s, body, width, height).0.meshes
    ensures BodyFrameAsWritten(distance, s, body, width, height).0.vertexData == s.vertexData
  {
    var f := Framed(s, ScoredRaw(body.keypoints));
    BodyStepAsWrittenAgrees(distance, f.meshes, body, width, height);
    if "face" in s.meshes {
      BodyStepAsWrittenKeeps(distance, f.meshes, body, width, height, "face");
    }
  }

  /** A hand that completes as written is the corrected hand, and keeps the
      face mesh and the vertex data. */
  lemma HandFrameAsWrittenAgrees(distance: Distance, s: State, hand: HandResult, width: Dim, height: Dim)
    requires HandFrameAsWritten(distance, s, hand, width, height).1
    ensures HandFrameAsWritten(distance, s, hand, width, height).0 == HandFrame(distance, s, hand, width, height)
    ensures "face" in s.meshes ==> "face" in HandFrameAsWritten(distance, s, hand, width, height).0.meshes
    ensures HandFrameAsWritten(distance, s, hand, width, height).0.vertexData == s.vertexData
  {
    var f := Framed(s, HandRaw(hand.keypoints, width, height));
    var entries := HandEntries(hand.annotations, width, height);
    HandPathsAsWrittenAgrees(distance, f.meshes, entries);
    if "face" in s.meshes {
      HandPathsAsWrittenKeeps(distance, f.meshes, entries, "face");
    }
  }

  /** With a face mesh in place or no vertex data yet, the face as written
      is the corrected face. */
  lemma FaceFrameAsWrittenAgrees(s: State, face: FaceResult, tri: seq<int>, uv: seq<(real, real)>)
    requires "face" in s.meshes || s.vertexData.None?
    ensures FaceFrameAsWritten(s, face, tri, uv) == FaceFrame(s, face, tri, uv)
  {
    var f := Framed(s, face.meshRaw);
    FaceStepAgrees(f.meshes, f.vertexData, face.meshRaw, tri, uv);
  }

  /** A frame that completes as written, on a state whose face mesh exists
      or that has no vertex data yet, is the frame of the corrected model. */
  lemma DrawFrameAsWrittenAgrees(distance: Distance, s: State, result: Result, width: Dim, height: Dim,
    tri: seq<int>, uv: seq<(real, real)>)
    requires "face" in s.meshes || s.vertexData.None?
    requires DrawFrameAsWritten(distance, s, result, width, height, tri, uv).1
    ensures DrawFrameAsWritten(distance, s, result, width, height, tri, uv) == DrawFrame(distance, s, result, width, height, tri, uv)
  {
    var b := if |result.body| > 0 then BodyFrameAsWritten(distance, s, result.body[0], width, height) else (s, true);
    if |result.body| > 0 {
      BodyFrameAsWrittenAgrees(distance, s, result.body[0], width, height);
    }
    var h := if |result.hand| > 0 then HandFrameAsWritten(distance, b.0, result.hand[0], width, height) else (b.0, true);
    if |result.hand| > 0 {
      HandFrameAsWrittenAgrees(distance, b.0, result.hand[0], width, height);
    }
    if |result.face| > 0 {
      FaceFrameAsWrittenAgrees(h.0, result.face[0], tri, uv);
    }
  }

  /** As written, a body part already drawn whose path now reaches a joint
      that neither the registry nor an earlier part of the frame has makes
      the whole frame throw: the hand and the face are not drawn. */
  lemma GrownBodyPathStopsFrame(distance: Distance, s: State, result: Result, width: Dim, height: Dim,
    tri: seq<int>, uv: seq<(real, real)>, j: nat, i: nat)
    requires |result.body| > 0
    requires var entries := BodyEntries(result.body[0].annotations, width, height);
      j < |entries| && entries[j].0 in s.meshes && i < |entries[j].1|
      && JointKey(entries[j].0, i) !in s.meshes && !OwnedBy(entries[..j], JointKey(entries[j].0, i))
    ensures var (r, ok) := DrawFrameAsWritten(distance, s, result, width, height, tri, uv);
      !ok && r == BodyFrameAsWritten(distance, s, result.body[0], width, height).0 && r.vertexData == s.vertexData
  {
    var f := Framed(s, ScoredRaw(result.body[0].keypoints));
    DrawPathsAsWrittenGrown(distance, f.meshes, BodyEntries(result.body[0].annotations, width, height), j, i);
  }

  /** As written, a hand part already drawn whose filtered path now reaches
      a joint that neither the registry nor an earlier drawn part has makes
      the hand throw, which also ends the frame before the face. */
  lemma GrownHandPathThrows(distance: Distance, s: State, hand: HandResult, width: Dim, height: Dim, j: nat, i: nat)
    requires var entries := HandEntries(hand.annotations, width, height);
      j < |entries| && entries[j].0 in s.meshes && 1 < |entries[j].1| && i < |entries[j].1|
      && JointKey(entries[j].0, i) !in s.meshes && !DrawnOwnedBy(entries[..j], JointKey(entries[j].0, i))
    ensures !HandFrameAsWritten(distance, s, hand, width, height).1
  {
    var f := Framed(s, HandRaw(hand.keypoints, width, height));
    HandPathsAsWrittenGrown(distance, f.meshes, HandEntries(hand.annotations, width, height), j, i);
  }

  /** As written, a part first drawn with n points gets joints 0 .. n-1
      only; when a later frame brings a longer path, joint n does not exist
      and the joint loop throws on it. */
  lemma LongerPathMissesJoint(m: Registry, desc: string, short: seq<Vec3>, long: seq<Vec3>, d: real, d': real)
    requires desc !in m && JointKey(desc, |short|) !in m && |short| < |long|
    ensures var after := PathStep(m, desc, short, d);
      desc in after && JointKey(desc, |short|) !in Retubed(Sighted(after, desc, long, d'), desc, long, d')
      && !JointsPresent(Retubed(Sighted(after, desc, long, d'), desc, long, d'), desc, |long|)
  {
    var key := JointKey(desc, |short|);
    PathStepKeys(m, desc, short, d, key);
    if JointOf(desc, |short|, key) {
      var i :| 0 <= i < |short| && key == JointKey(desc, i);
      JointKeysDiffer(desc, i, |short|);
    }
  }

  /** With every one of the first n joints present, the joint loop adds no
      key. */
  lemma PlacedKeepsKeys(m: Registry, desc: string, path: seq<Vec3>, diameter: real, n: nat, k: string)
    requires n <= |path| && JointsPresent(m, desc, n)
    ensures k in Placed(m, desc, path, diameter, n) <==> k in m
  {
    PlacedKeys(m, desc, path, diameter, n, k);
  }

  /** The first-sight block of `drawPath`: a part not in the registry gets
      a new tube and one new joint per path point. */
  method Sight(m: Registry, desc: string, path: seq<Vec3>, diameter: real) returns (r: Registry)
    ensures r == Sighted(m, desc, path, diameter)
  {
    r := m;
    if desc !in r {
      r := r[desc := NewTube(desc, path, diameter)];
      ghost var created := r;
      for i := 0 to |path|
        invariant r == WithJoints(created, desc, i)
      {
        r := r[JointKey(desc, i) := NewJoint(JointKey(desc, i))];
      }
    }
  }

  /** The joint loop of `drawPath` as written: it updates joints 0, 1, ...
      and throws on the first one that does not exist. It returns how many
      it updated. */
  method UpdateJoints(t: Registry, desc: string, path: seq<Vec3>, diameter: real) returns (r: Registry, placed: nat)
    ensures placed <= |path| && r == Placed(t, desc, path, diameter, placed)
    ensures JointsPresent(t, desc, placed)
    ensures placed < |path| ==> JointKey(desc, placed) !in t
  {
    r, placed := t, 0;
    while placed < |path|
      invariant placed <= |path|
      invariant r == Placed(t, desc, path, diameter, placed) && JointsPresent(t, desc, placed)
    {
      var key := JointKey(desc, placed);
      PlacedKeepsKeys(t, desc, path, diameter, placed, key);
      if key !in r {
        return;
      }
      r := r[key := r[key].(position := path[placed], scaling := Uniform(1.1 * diameter))];
      placed := placed + 1;
    }
  }

  /** The joint loop of `drawPath`, creating a joint that does not exist
      before moving it. */
  method PlaceJoints(t: Registry, desc: string, path: seq<Vec3>, diameter: real) returns (r: Registry)
    ensures r == Placed(t, desc, path, diameter, |path|)
  {
    r := t;
    for i := 0 to |path|
      invariant r == Placed(t, desc, path, diameter, i)
    {
      var key := JointKey(desc, i);
      var joint := if key in r then r[key] else NewJoint(key);
      r := r[key := joint.(position := path[i], scaling := Uniform(1.1 * diameter))];
    }
  }

  /** The surface part of `drawFace`: the face mesh created when missing,
      the vertex data built and applied when none exists or the face mesh
      is new, then this frame's positions set. */
  method UpdateSurface(m: Registry, data: Option<VertexData>, positions: seq<real>,
    tri: seq<int>, uv: seq<(real, real)>) returns (r: Registry, d: Option<VertexData>)
    ensures (r, d) == SurfaceStep(m, data, positions, tri, uv)
  {
    var face := if "face" in m then m["face"] else NewSurface();
    d := data;
    if data.None? || "face" !in m {
      var built := VertexData(positions, tri, FlatUVs(uv));
      d := Some(built);
      face := Applied(face, built);
    }
    r := m["face" := Repositioned(face, positions)];
  }

  /** The iris part of `drawFace`. */
  method UpdateIrises(m: Registry, p: seq<real>) returns (r: Registry)
    requires |p| >= 3 * IrisLandmarks
    ensures r == Irises(m, p)
  {
    r := m;
    if "leftEye" !in r || "rightEye" !in r {
      r := r["leftEye" := NewIris("leftEye")]["rightEye" := NewIris("rightEye")];
    }
    var eyeSize := Abs(p[3 * 469 + 0] - p[3 * 471 + 0]) + Abs(p[3 * 474 + 0] - p[3 * 476 + 0]);
    r := r["leftEye" := r["leftEye"].(position := Vec3(p[3 * 468 + 0], p[3 * 468 + 1], p[3 * 468 + 2] / 10.0), scaling := Uniform(eyeSize))];
    r := r["rightEye" := r["rightEye"].(position := Vec3(p[3 * 473 + 0], p[3 * 473 + 1], p[3 * 473 + 2] / 10.0), scaling := Uniform(eyeSize))];
  }

  /** The loop over the landmarks past the irises in `drawFace`. */
  method UpdateAugments(e: Registry, p: seq<real>, from: nat, n: nat) returns (r: Registry)
    requires from <= n && 3 * n <= |p|
    ensures r == Augmented(e, p, from, n)
  {
    r := e;
    for i := from to n
      invariant r == Augmented(e, p, from, i)
    {
      ghost var before := r;
      var key := AugmentKey(i);
      var sphere := if key in r then r[key] else Mesh(key, Sphere(AugmentDiameter), Origin, Unit);
      r := r[key := sphere.(position := Vec3(p[3 * i + 0], p[3 * i + 1], p[3 * i + 2] / 20.0))];
      assert r == AugmentStep(before, p, i);
    }
  }

  /** The registry `drawHead` leaves, given the one its neck `drawPath`
      left. */
  lemma PlaceHeadIs(distance: Distance, m: Registry, g: Head, width: Dim, height: Dim, neck: seq<Vec3>, r: Registry)
    requires "head" in m && neck == NeckPath(g, width, height)
    requires r == PathStep(m, "neck", neck, Diameter(distance, neck))
    ensures "head" in r
    ensures PlaceHead(distance, m, g, width, height)
      == r["head" := r["head"].(position := Norm(g.centre, width, height), scaling := Vec3(g.size, 1.1 * g.size, g.size))]
  {
  }

  /** The parts loop of `drawBody` one entry further. */
  lemma DrawPathsNext(distance: Distance, m: Registry, entries: seq<Entry>, n: nat)
    requires n < |entries|
    ensures var before, e := DrawPaths(distance, m, entries[..n]), entries[n];
      DrawPaths(distance, m, entries[..n + 1])
      == if !before.1 || |e.1| == 0 then (before.0, false) else (PathStep(before.0, e.0, e.1, Diameter(distance, e.1)), true)
  {
    assert entries[..n + 1][..n] == entries[..n];
  }

  /** The parts loop of `drawHand` one entry further. */
  lemma HandPathsNext(distance: Distance, m: Registry, entries: seq<Entry>, n: nat)
    requires n < |entries|
    ensures var before, e := HandPaths(distance, m, entries[..n]), entries[n];
      HandPaths(distance, m, entries[..n + 1])
      == if |e.1| > 1 then PathStep(before, e.0, e.1, Diameter(distance, e.1)) else before
  {
    assert entries[..n + 1][..n] == entries[..n];
  }

  class Renderer {
    /** `t` has been created by `init`. */
    var hasScene: bool
    /** `t.initialized`: the camera has been placed since the last `init`. */
    var initialized: bool
    var meshes: Registry
    var faceTriangulation: seq<int>
    var faceUVMap: seq<(real, real)>
    var faceVertexData: Option<VertexData>
    /** Where the camera animation ends. */
    var cameraTarget: Vec3
    var cameraPosition: Vec3
    /** `Vector3.Distance`. */
    const distance: Distance

    /** The fields a frame changes. */
    function Snapshot(): State
      reads this
    {
      State(initialized, cameraTarget, cameraPosition, meshes, faceVertexData)
    }

    /** The module before any call: no scene, no meshes, no vertex data. */
    constructor (distance: Distance)
      ensures this.distance == distance
      ensures !hasScene && !initialized && meshes == map[] && faceVertexData.None?
      ensures faceTriangulation == [] && faceUVMap == []
      ensures cameraTarget == Origin && cameraPosition == Origin
    {
      this.distance := distance;
      hasScene, initialized, meshes, faceVertexData := false, false, map[], None;
      faceTriangulation, faceUVMap := [], [];
      cameraTarget, cameraPosition := Origin, Origin;
    }

    /** `init`: the scene exists and is not initialized, the triangulation
        and texture map are replaced, and every mesh is disposed of. The
        vertex data and the camera are kept. */
    method Init(triangulation: seq<int>, uvmap: seq<(real, real)>)
      modifies this`hasScene, this`initialized, this`faceTriangulation, this`faceUVMap, this`meshes
      ensures hasScene && !initialized && meshes == map[]
      ensures faceTriangulation == triangulation && faceUVMap == uvmap
    {
      hasScene := true;
      initialized := false;
      faceTriangulation := triangulation;
      faceUVMap := uvmap;
      meshes := map[];
    }

    /** `centerCamera`: the scene is initialized and the camera ends on the
        frame of the points. */
    method CenterCamera(points: seq<Point>)
      modifies this`initialized, this`cameraTarget, this`cameraPosition
      ensures initialized
      ensures cameraTarget == CameraTarget(points) && cameraPosition == CameraPosition(points)
    {
      initialized := true;
      var max, min := MaxMin(points);
      cameraTarget := Vec3((max[0] - min[0]) / 2.0 + min[0], (max[1] - min[1]) / 2.0 + min[1], 0.0);
      cameraPosition := Vec3((max[0] - min[0]) / 2.0 + min[0], max[1], -13.0);
    }

    /** `drawPath` as written: the joint loop only updates joints, so it
        throws on the first joint that was never created. `placed` counts
        the joints updated before that. */
    method DrawPathAsWritten(desc: string, path: seq<Vec3>) returns (ok: bool, placed: nat)
      modifies this`meshes
      ensures !initialized ==> ok && meshes == old(meshes)
      ensures initialized && |path| == 0 ==> !ok && meshes == old(meshes)
      ensures initialized && |path| > 0 ==>
        var d := Diameter(distance, path);
        var t := Retubed(Sighted(old(meshes), desc, path, d), desc, path, d);
        placed <= |path| && meshes == Placed(t, desc, path, d, placed)
        && JointsPresent(t, desc, placed)
        && (ok <==> placed == |path|)
        && (!ok ==> JointKey(desc, placed) !in t)
        && (ok ==> meshes == PathStep(old(meshes), desc, path, d))
        && (meshes, ok) == PathStepAsWritten(old(meshes), desc, path, d)
    {
      if !initialized {
        return true, 0;
      }
      if |path| == 0 {
        return false, 0;
      }
      var diameter := 0.5 * PathLength(distance, path) + MinDiameter;
      var sighted := Sight(meshes, desc, path, diameter);
      var t := sighted[desc := sighted[desc].(shape := Tube(path, diameter / 2.0))];
      assert diameter == Diameter(distance, path);
      assert t == Retubed(Sighted(old(meshes), desc, path, diameter), desc, path, diameter);
      meshes, placed := UpdateJoints(t, desc, path, diameter);
      ok := placed == |path|;
      PathStepAsWrittenIs(old(meshes), desc, path, diameter, placed, meshes);
    }

    /** `drawPath` with the joint loop creating a joint that is missing:
        nothing happens before the scene is initialized, an empty path
        throws, and otherwise the part is drawn. */
    method DrawPath(desc: string, path: seq<Vec3>) returns (ok: bool)
      modifies this`meshes
      ensures !initialized ==> ok && meshes == old(meshes)
      ensures initialized ==> (ok <==> |path| > 0)
      ensures initialized && |path| == 0 ==> meshes == old(meshes)
      ensures initialized && |path| > 0 ==> meshes == PathStep(old(meshes), desc, path, Diameter(distance, path))
    {
      if !initialized {
        return true;
      }
      if |path| == 0 {
        return false;
      }
      var diameter := 0.5 * PathLength(distance, path) + MinDiameter;
      var sighted := Sight(meshes, desc, path, diameter);
      var t := sighted[desc := sighted[desc].(shape := Tube(path, diameter / 2.0))];
      meshes := PlaceJoints(t, desc, path, diameter);
      ok := true;
    }

    /** `drawHead`: nothing before the scene is initialized; otherwise the
        head step, which throws when an eye or shoulder keypoint is
        missing. */
    method DrawHead(body: BodyResult, width: Dim, height: Dim) returns (ok: bool)
      modifies this`meshes
      ensures !initialized ==> ok && meshes == old(meshes)
      ensures initialized ==> (meshes, ok) == HeadStep(distance, old(meshes), body.keypoints, width, height)
    {
      if !initialized {
        return true;
      }
      if "head" !in meshes {
        meshes := meshes["head" := NewHead()];
      }
      var kpts := body.keypoints;
      var le, re := FindKeypoint(kpts, "leftEye"), FindKeypoint(kpts, "rightEye");
      var ls, rs := FindKeypoint(kpts, "leftShoulder"), FindKeypoint(kpts, "rightShoulder");
      if le.None? || re.None? || ls.None? || rs.None? {
        return false;
      }
      var g := HeadGeometry(distance, le.value.position, re.value.position, ls.value.position, rs.value.position);
      DrawNeckAndHead(g, width, height);
      ok := true;
    }

    /** The end of `drawHead`: the neck drawn as a part, then the head
        moved and scaled. */
    method DrawNeckAndHead(g: Head, width: Dim, height: Dim)
      requires initialized && "head" in meshes
      modifies this`meshes
      ensures meshes == PlaceHead(distance, old(meshes), g, width, height)
    {
      var neck := [Norm(g.neckBase, width, height), Norm(g.neckEnd, width, height)];
      ghost var withHead := meshes;
      var drawn := DrawPath("neck", neck);
      ghost var r := meshes;
      meshes := meshes["head" := meshes["head"].(position := Norm(g.centre, width, height), scaling := Vec3(g.size, 1.1 * g.size, g.size))];
      PlaceHeadIs(distance, withHead, g, width, height, neck, r);
    }

    /** `drawBody`. */
    method DrawBody(body: BodyResult, width: Dim, height: Dim) returns (ok: bool)
      modifies this`initialized, this`cameraTarget, this`cameraPosition, this`meshes
      ensures (Snapshot(), ok) == BodyFrame(distance, old(Snapshot()), body, width, height)
    {
      if !initialized {
        CenterCamera(ScoredRaw(body.keypoints));
      }
      ghost var framed := Snapshot();
      ghost var entries := BodyEntries(body.annotations, width, height);
      var ann := body.annotations;
      for n := 0 to |ann|
        invariant initialized && cameraTarget == framed.target && cameraPosition == framed.position
        invariant DrawPaths(distance, framed.meshes, entries[..n]) == (meshes, true)
      {
        var (desc, parts) := ann[n];
        var path := NormParts(parts, width, height);
        assert entries[n] == (desc, path);
        DrawPathsNext(distance, framed.meshes, entries, n);
        ok := DrawPath(desc, path);
        if !ok {
          DrawPathsStops(distance, framed.meshes, entries, n);
          return;
        }
      }
      assert entries[..|ann|] == entries;
      ok := DrawHead(body, width, height);
    }

    /** `drawHand`. */
    method DrawHand(hand: HandResult, width: Dim, height: Dim)
      modifies this`initialized, this`cameraTarget, this`cameraPosition, this`meshes
      ensures Snapshot() == HandFrame(distance, old(Snapshot()), hand, width, height)
    {
      if !initialized {
        CenterCamera(HandRaw(hand.keypoints, width, height));
      }
      ghost var framed := Snapshot();
      ghost var entries := HandEntries(hand.annotations, width, height);
      var ann := hand.annotations;
      for n := 0 to |ann|
        invariant initialized && cameraTarget == framed.target && cameraPosition == framed.position
        invariant meshes == HandPaths(distance, framed.meshes, entries[..n])
      {
        var (desc, pts) := ann[n];
        var path := FilterPoints(pts, width, height);
        assert entries[n] == (desc, path);
        HandPathsNext(distance, framed.meshes, entries, n);
        if |path| > 1 {
          var drawn := DrawPath(desc, path);
        }
      }
      assert entries[..|ann|] == entries;
    }

    /** `drawFace`, with the vertex data also applied to a newly created
        face mesh. */
    method DrawFace(face: FaceResult)
      modifies this`initialized, this`cameraTarget, this`cameraPosition, this`meshes, this`faceVertexData
      ensures Snapshot() == FaceFrame(old(Snapshot()), face, faceTriangulation, faceUVMap)
    {
      if !initialized {
        CenterCamera(face.meshRaw);
      }
      var raw := face.meshRaw;
      if |raw| < FaceLandmarks {
        return;
      }
      var positions := Buffers.FillPositions(raw, FaceSlot);
      meshes, faceVertexData := UpdateSurface(meshes, faceVertexData, positions, faceTriangulation, faceUVMap);
      if |raw| < IrisLandmarks {
        return;
      }
      var withIrises := UpdateIrises(meshes, positions);
      meshes := UpdateAugments(withIrises, positions, IrisLandmarks, |raw|);
    }

    /** `draw`: nothing without a scene; otherwise the frame, which ends
        early and reports false when the body throws. */
    method Draw(width: Dim, height: Dim, result: Result) returns (ok: bool)
      modifies this`initialized, this`cameraTarget, this`cameraPosition, this`meshes, this`faceVertexData
      ensures !hasScene ==> ok && Snapshot() == old(Snapshot())
      ensures hasScene ==> (Snapshot(), ok) == DrawFrame(distance, old(Snapshot()), result, width, height, faceTriangulation, faceUVMap)
    {
      ok := true;
      if !hasScene {
        return;
      }
      if |result.body| > 0 {
        ok := DrawBody(result.body[0], width, height);
        if !ok {
          return;
        }
      }
      if |result.hand| > 0 {
        DrawHand(result.hand[0], width, height);
      }
      if |result.face| > 0 {
        DrawFace(result.face[0]);
      }
    }
  }
}

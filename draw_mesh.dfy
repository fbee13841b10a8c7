/**
 * The tube-mesh renderer of src/draw-mesh.ts. Body and hand parts are kept
 * in two tables from part name to tube handle; every frame each annotated
 * part is created, rebuilt or deleted by the same keyed rule. The face is
 * flattened into a vertex buffer and two iris spheres follow it.
 *
 * Engine objects are values recording the options they were built with.
 * A tube rebuild may throw; which part names throw in a frame is a
 * parameter (`failing`).
 */
module DrawMesh {
  import opened Wrappers
  import opened Human
  import opened Geometry
  import opened Paths
  import Buffers

  const TubeRadius: real := 0.015
  const EyeDiameter: real := 0.1
  /** The face is drawn only for a mesh of exactly this many points. */
  const FacePoints: nat := 478

  datatype Tube = Tube(name: string, path: seq<Vec3>, radius: real)
  datatype Sphere = Sphere(name: string, diameter: real, position: Vec3, scaling: Vec3)
  /** The vertex data last applied to the face mesh. */
  datatype FaceMesh = FaceMesh(positions: seq<real>, indices: seq<int>)

  type Table = map<string, Tube>

  /** Every tube in a table carries its key as its name. */
  predicate Keyed(tubes: Table)
  {
    forall k :: k in tubes ==> tubes[k].name == k
  }
  /** A part name with the path built for it this frame. */
  type Entry = (string, seq<Vec3>)

  function NewTube(desc: string, path: seq<Vec3>): Tube
  {
    Tube(desc, path, TubeRadius)
  }

  /** Rebuilding an existing tube on a new path; `None` when it throws. */
  function RebuildTube(existing: Tube, path: seq<Vec3>, fails: bool): (r: Option<Tube>)
    ensures r.Some? <==> !fails
    ensures r.Some? ==> r.value == Tube(existing.name, path, TubeRadius)
  {
    if fails then None else Some(Tube(existing.name, path, TubeRadius))
  }

  /** The keyed rule applied to one part. */
  function PartStep(tubes: Table, desc: string, path: seq<Vec3>, updateFails: bool): (r: Table)
    ensures |path| < 2 ==> desc !in r
    ensures |path| >= 2 && desc !in tubes ==> desc in r && r[desc] == NewTube(desc, path)
    ensures |path| >= 2 && desc in tubes ==> (desc in r <==> !updateFails)
    ensures desc in r ==> r[desc].path == path && r[desc].radius == TubeRadius
    ensures forall k :: k != desc ==> (k in r <==> k in tubes) && (k in r ==> r[k] == tubes[k])
    ensures Keyed(tubes) ==> Keyed(r)
  {
    if |path| < 2 then tubes - {desc}
    else if desc !in tubes then tubes[desc := NewTube(desc, path)]
    else
      match RebuildTube(tubes[desc], path, updateFails)
      case Some(t) => tubes[desc := t]
      case None => tubes - {desc}
  }

  /** The table after a frame's entries, taken in order. */
  function TableFold(tubes: Table, entries: seq<Entry>, failing: set<string>): Table
  {
    if entries == [] then tubes
    else
      var e := entries[|entries| - 1];
      PartStep(TableFold(tubes, entries[..|entries| - 1], failing), e.0, e.1, e.0 in failing)
  }

  lemma {:induction false} TableFoldKeyed(tubes: Table, entries: seq<Entry>, failing: set<string>)
    requires Keyed(tubes)
    ensures Keyed(TableFold(tubes, entries, failing))
  {
    if entries != [] {
      TableFoldKeyed(tubes, entries[..|entries| - 1], failing);
    }
  }

  /** Paths built for body parts: visible points of all sub-parts. */
  function BodyEntries(ann: seq<(string, seq<seq<Point>>)>, width: Dim, height: Dim): seq<Entry>
  {
    seq(|ann|, i requires 0 <= i < |ann| => (ann[i].0, VisiblePath(Flatten(ann[i].1), width, height)))
  }

  /** Paths built for hand parts: visible points. */
  function HandEntries(ann: seq<(string, seq<Point>)>, width: Dim, height: Dim): seq<Entry>
  {
    seq(|ann|, i requires 0 <= i < |ann| => (ann[i].0, VisiblePath(ann[i].1, width, height)))
  }

  /** `window.path` after recording every entry. */
  function RecordPaths(paths: map<string, seq<Vec3>>, entries: seq<Entry>): map<string, seq<Vec3>>
  {
    if entries == [] then paths
    else
      var e := entries[|entries| - 1];
      RecordPaths(paths, entries[..|entries| - 1])[e.0 := e.1]
  }

  /** A frame never touches a key that is not among its part names: stale
      parts are not swept. */
  lemma {:induction false} TableFoldLeavesOthers(tubes: Table, entries: seq<Entry>, failing: set<string>, k: string)
    requires forall j :: 0 <= j < |entries| ==> entries[j].0 != k
    ensures k in TableFold(tubes, entries, failing) <==> k in tubes
    ensures k in tubes ==> TableFold(tubes, entries, failing)[k] == tubes[k]
  {
    if entries != [] {
      TableFoldLeavesOthers(tubes, entries[..|entries| - 1], failing, k);
    }
  }

  /** With distinct part names, a part is present after the frame exactly
      when its path has two points and it was either new or rebuilt without
      throwing; it then holds this frame's path. */
  lemma {:induction false} TableFoldOutcome(tubes: Table, entries: seq<Entry>, failing: set<string>, j: nat)
    requires Keyed(tubes) && UniqueNames(entries) && j < |entries|
    ensures var r, d, p := TableFold(tubes, entries, failing), entries[j].0, entries[j].1;
      (d in r <==> |p| >= 2 && (d !in tubes || d !in failing))
      && (d in r ==> r[d] == Tube(d, p, TubeRadius))
  {
    var init := entries[..|entries| - 1];
    UniqueInit(entries);
    if j == |entries| - 1 {
      TableFoldLeavesOthers(tubes, init, failing, entries[j].0);
      TableFoldKeyed(tubes, init, failing);
    } else {
      TableFoldOutcome(tubes, init, failing, j);
    }
  }

  /** Dropping the last entry keeps names distinct, and the last name is
      not among the others. */
  lemma UniqueInit<T>(entries: seq<(string, T)>)
    requires UniqueNames(entries) && |entries| > 0
    ensures var init := entries[..|entries| - 1];
      UniqueNames(init)
      && (forall i :: 0 <= i < |init| ==> init[i] == entries[i])
      && (forall i :: 0 <= i < |init| ==> init[i].0 != entries[|entries| - 1].0)
  {
  }

  /** Every hand part's path is recorded, whatever its length. */
  lemma {:induction false} RecordPathsAt(paths: map<string, seq<Vec3>>, entries: seq<Entry>, j: nat)
    requires UniqueNames(entries) && j < |entries|
    ensures entries[j].0 in RecordPaths(paths, entries)
    ensures RecordPaths(paths, entries)[entries[j].0] == entries[j].1
  {
    if j < |entries| - 1 {
      UniqueInit(entries);
      RecordPathsAt(paths, entries[..|entries| - 1], j);
    }
  }

  /** Recording adds the part names and nothing else. */
  lemma {:induction false} RecordPathsKeys(paths: map<string, seq<Vec3>>, entries: seq<Entry>, k: string)
    ensures k in RecordPaths(paths, entries) <==> k in paths || exists j :: 0 <= j < |entries| && entries[j].0 == k
  {
    if entries != [] {
      var init := entries[..|entries| - 1];
      RecordPathsKeys(paths, init, k);
      if exists j :: 0 <= j < |entries| && entries[j].0 == k {
        var j :| 0 <= j < |entries| && entries[j].0 == k;
        if j < |init| {
          assert init[j].0 == k;
        }
      }
    }
  }

  /** Face slot k of a point: x scaled by 1.5, y flipped and lifted,
      z scaled by 0.75. */
  function FaceSlot(pt: Point, k: nat): real
  {
    if k == 0 then 1.5 * Coord(pt, 0)
    else if k == 1 then 1.75 * -Coord(pt, 1) + 2.0
    else 0.75 * Coord(pt, 2)
  }

  function FaceBuffer(pts: seq<Point>): seq<real>
  {
    Buffers.Layout(pts, FaceSlot)
  }

  /** The buffer slots read for the iris spheres. */
  lemma IrisSlots(pts: seq<Point>, buf: seq<real>)
    requires |pts| == FacePoints && buf == FaceBuffer(pts)
    ensures Vec3(buf[3 * 468 + 0], buf[3 * 468 + 1], buf[3 * 468 + 2] / 20.0) == EyePosition(pts[468])
    ensures Vec3(buf[3 * 473 + 0], buf[3 * 473 + 1], buf[3 * 473 + 2] / 20.0) == EyePosition(pts[473])
    ensures 5.0 * (Abs(buf[3 * 469 + 0] - buf[3 * 471 + 0]) + Abs(buf[3 * 474 + 0] - buf[3 * 476 + 0])) == EyeSize(pts)
  {
    Buffers.LayoutSlots(pts, FaceSlot, 468, 0);
    Buffers.LayoutSlots(pts, FaceSlot, 468, 1);
    Buffers.LayoutSlots(pts, FaceSlot, 468, 2);
    Buffers.LayoutSlots(pts, FaceSlot, 473, 0);
    Buffers.LayoutSlots(pts, FaceSlot, 473, 1);
    Buffers.LayoutSlots(pts, FaceSlot, 473, 2);
    Buffers.LayoutSlots(pts, FaceSlot, 469, 0);
    Buffers.LayoutSlots(pts, FaceSlot, 471, 0);
    Buffers.LayoutSlots(pts, FaceSlot, 474, 0);
    Buffers.LayoutSlots(pts, FaceSlot, 476, 0);
  }

  /** FaceStep on a full mesh, written over the buffer as the renderer
      reads it. */
  lemma FaceStepFromBuffer(s: FaceState, triangulation: seq<int>, pts: seq<Point>, buf: seq<real>,
                            left: Sphere, right: Sphere, leftAt: Vec3, rightAt: Vec3, size: real)
    requires |pts| == FacePoints && buf == FaceBuffer(pts)
    requires var created := s.leftEye.None? || s.rightEye.None?;
      left == (if created then NewEye("leftEye") else s.leftEye.value)
      && right == (if created then NewEye("rightEye") else s.rightEye.value)
    requires leftAt == Vec3(buf[3 * 468 + 0], buf[3 * 468 + 1], buf[3 * 468 + 2] / 20.0)
    requires rightAt == Vec3(buf[3 * 473 + 0], buf[3 * 473 + 1], buf[3 * 473 + 2] / 20.0)
    requires size == 5.0 * (Abs(buf[3 * 469 + 0] - buf[3 * 471 + 0]) + Abs(buf[3 * 474 + 0] - buf[3 * 476 + 0]))
    ensures FaceStep(s, triangulation, pts)
      == FaceState(FaceMesh(buf, triangulation),
                   Some(left.(position := leftAt, scaling := Uniform(size))),
                   Some(right.(position := rightAt, scaling := Uniform(size))))
  {
    IrisSlots(pts, buf);
  }

  function NewEye(name: string): Sphere
  {
    Sphere(name, EyeDiameter, Origin, Unit)
  }

  /** An iris sphere sits on its landmark, z reduced 20 times. */
  function EyePosition(pt: Point): Vec3
  {
    Vec3(FaceSlot(pt, 0), FaceSlot(pt, 1), FaceSlot(pt, 2) / 20.0)
  }

  /** Five times the summed horizontal widths of the two irises. */
  function EyeSize(pts: seq<Point>): (r: real)
    requires |pts| == FacePoints
    ensures r >= 0.0
  {
    5.0 * (Abs(FaceSlot(pts[469], 0) - FaceSlot(pts[471], 0)) + Abs(FaceSlot(pts[474], 0) - FaceSlot(pts[476], 0)))
  }

  datatype FaceState = FaceState(mesh: FaceMesh, leftEye: Option<Sphere>, rightEye: Option<Sphere>)

  /** One face frame. */
  function FaceStep(s: FaceState, triangulation: seq<int>, meshRaw: seq<Point>): FaceState
  {
    var created := s.leftEye.None? || s.rightEye.None?;
    var left := if created then NewEye("leftEye") else s.leftEye.value;
    var right := if created then NewEye("rightEye") else s.rightEye.value;
    if |meshRaw| != FacePoints then FaceState(s.mesh, Some(left), Some(right))
    else
      var size := EyeSize(meshRaw);
      FaceState(FaceMesh(FaceBuffer(meshRaw), triangulation),
                Some(left.(position := EyePosition(meshRaw[468]), scaling := Uniform(size))),
                Some(right.(position := EyePosition(meshRaw[473]), scaling := Uniform(size))))
  }

  /** Apart from creating the eye spheres when one is missing, a face whose
      mesh does not have exactly 478 points changes nothing. */
  lemma FaceStepGate(s: FaceState, triangulation: seq<int>, meshRaw: seq<Point>)
    requires |meshRaw| != FacePoints
    ensures var r, created := FaceStep(s, triangulation, meshRaw), s.leftEye.None? || s.rightEye.None?;
      r.mesh == s.mesh
      && r.leftEye == (if created then Some(NewEye("leftEye")) else s.leftEye)
      && r.rightEye == (if created then Some(NewEye("rightEye")) else s.rightEye)
  {
  }

  /** A full face mesh replaces the vertex data and places both irises on
      their landmarks (points 468 and 473); eye handles that existed are
      kept, not recreated. */
  lemma FaceStepDraws(s: FaceState, triangulation: seq<int>, meshRaw: seq<Point>)
    requires |meshRaw| == FacePoints
    ensures var r := FaceStep(s, triangulation, meshRaw);
      r.mesh == FaceMesh(FaceBuffer(meshRaw), triangulation)
      && r.leftEye.Some? && r.leftEye.value.position == EyePosition(meshRaw[468])
      && r.rightEye.Some? && r.rightEye.value.position == EyePosition(meshRaw[473])
      && r.leftEye.value.scaling == Uniform(EyeSize(meshRaw)) && r.rightEye.value.scaling == Uniform(EyeSize(meshRaw))
      && (s.leftEye.Some? && s.rightEye.Some? ==>
            r.leftEye.value.name == s.leftEye.value.name && r.rightEye.value.name == s.rightEye.value.name)
  {
  }

  class Stage {
    /** The scene, the shadow generator, the face mesh and `window.path`
        exist: they are left unset at module load and made by `init`. */
    var hasScene: bool
    var bodyTubes: Table
    var handTubes: Table
    /** `window.path`, exposed for diagnostics. */
    var windowPath: map<string, seq<Vec3>>
    var faceTriangulation: seq<int>
    var faceMesh: FaceMesh
    var leftEye: Option<Sphere>
    var rightEye: Option<Sphere>

    constructor ()
      ensures !hasScene
      ensures bodyTubes == map[] && handTubes == map[] && windowPath == map[]
      ensures faceTriangulation == [] && faceMesh == FaceMesh([], [])
      ensures leftEye.None? && rightEye.None?
    {
      hasScene := false;
      bodyTubes, handTubes, windowPath := map[], map[], map[];
      faceTriangulation, faceMesh := [], FaceMesh([], []);
      leftEye, rightEye := None, None;
    }

    /** A new scene with an empty face mesh and an empty `window.path`. The
        module-level tube tables and eye handles are not reset. */
    method Init(triangulation: seq<int>)
      modifies this
      ensures hasScene
      ensures faceTriangulation == triangulation && faceMesh == FaceMesh([], []) && windowPath == map[]
      ensures bodyTubes == old(bodyTubes) && handTubes == old(handTubes)
      ensures leftEye == old(leftEye) && rightEye == old(rightEye)
    {
      hasScene := true;
      faceTriangulation := triangulation;
      faceMesh := FaceMesh([], []);
      windowPath := map[];
    }

    method Body(result: BodyResult, width: Dim, height: Dim, failing: set<string>)
      requires hasScene
      modifies this`bodyTubes
      ensures bodyTubes == TableFold(old(bodyTubes), BodyEntries(result.annotations, width, height), failing)
    {
      var ann := result.annotations;
      ghost var entries := BodyEntries(ann, width, height);
      for n := 0 to |ann|
        invariant bodyTubes == TableFold(old(bodyTubes), entries[..n], failing)
      {
        var (desc, parts) := ann[n];
        var path := FilterParts(parts, width, height);
        assert entries[n] == (desc, path);
        ghost var before := bodyTubes;
        if |path| < 2 {
          bodyTubes := bodyTubes - {desc};
        } else if desc !in bodyTubes {
          bodyTubes := bodyTubes[desc := NewTube(desc, path)];
        } else {
          var rebuilt := RebuildTube(bodyTubes[desc], path, desc in failing);
          if rebuilt.Some? {
            bodyTubes := bodyTubes[desc := rebuilt.value];
          } else {
            bodyTubes := bodyTubes - {desc};
          }
        }
        assert bodyTubes == PartStep(before, desc, path, desc in failing);
        assert entries[..n + 1][..n] == entries[..n];
      }
      assert entries[..|ann|] == entries;
    }

    method Hand(result: HandResult, width: Dim, height: Dim, failing: set<string>)
      requires hasScene
      modifies this`handTubes, this`windowPath
      ensures handTubes == TableFold(old(handTubes), HandEntries(result.annotations, width, height), failing)
      ensures windowPath == RecordPaths(old(windowPath), HandEntries(result.annotations, width, height))
    {
      var ann := result.annotations;
      ghost var entries := HandEntries(ann, width, height);
      for n := 0 to |ann|
        invariant handTubes == TableFold(old(handTubes), entries[..n], failing)
        invariant windowPath == RecordPaths(old(windowPath), entries[..n])
      {
        var (desc, pts) := ann[n];
        var path := FilterPoints(pts, width, height);
        assert entries[n] == (desc, path);
        ghost var before := handTubes;
        assert entries[..n + 1][..n] == entries[..n];
        windowPath := windowPath[desc := path];
        assert windowPath == RecordPaths(old(windowPath), entries[..n + 1]);
        if |path| < 2 {
          handTubes := handTubes - {desc};
        } else if desc !in handTubes {
          handTubes := handTubes[desc := NewTube(desc, path)];
        } else {
          var rebuilt := RebuildTube(handTubes[desc], path, desc in failing);
          if rebuilt.Some? {
            handTubes := handTubes[desc := rebuilt.value];
          } else {
            handTubes := handTubes - {desc};
          }
        }
        assert handTubes == PartStep(before, desc, path, desc in failing);
      }
      assert entries[..|ann|] == entries;
    }

    method Face(result: FaceResult)
      requires hasScene
      modifies this`faceMesh, this`leftEye, this`rightEye
      ensures FaceState(faceMesh, leftEye, rightEye)
        == FaceStep(FaceState(old(faceMesh), old(leftEye), old(rightEye)), faceTriangulation, result.meshRaw)
    {
      ghost var before := FaceState(faceMesh, leftEye, rightEye);
      if leftEye.None? || rightEye.None? {
        leftEye := Some(NewEye("leftEye"));
        rightEye := Some(NewEye("rightEye"));
      }
      var pts := result.meshRaw;
      if |pts| != FacePoints {
        return;
      }
      var positions := Buffers.FillPositions(pts, FaceSlot);
      var left, right := leftEye.value, rightEye.value;
      var eyeSize := 5.0 * (Abs(positions[3 * 469 + 0] - positions[3 * 471 + 0]) + Abs(positions[3 * 474 + 0] - positions[3 * 476 + 0]));
      var leftAt := Vec3(positions[3 * 468 + 0], positions[3 * 468 + 1], positions[3 * 468 + 2] / 20.0);
      var rightAt := Vec3(positions[3 * 473 + 0], positions[3 * 473 + 1], positions[3 * 473 + 2] / 20.0);
      FaceStepFromBuffer(before, faceTriangulation, pts, positions, left, right, leftAt, rightAt, eyeSize);
      faceMesh := FaceMesh(positions, faceTriangulation);
      leftEye := Some(left.(position := leftAt, scaling := Uniform(eyeSize)));
      rightEye := Some(right.(position := rightAt, scaling := Uniform(eyeSize)));
    }

    /** Draws the first body, the first hand and the first face of a result,
        each only when present. */
    method Draw(width: Dim, height: Dim, result: Result, bodyFailing: set<string>, handFailing: set<string>)
      requires hasScene
      modifies this`bodyTubes, this`handTubes, this`windowPath, this`faceMesh, this`leftEye, this`rightEye
      ensures bodyTubes == if |result.body| > 0
        then TableFold(old(bodyTubes), BodyEntries(result.body[0].annotations, width, height), bodyFailing)
        else old(bodyTubes)
      ensures handTubes == if |result.hand| > 0
        then TableFold(old(handTubes), HandEntries(result.hand[0].annotations, width, height), handFailing)
        else old(handTubes)
      ensures windowPath == if |result.hand| > 0
        then RecordPaths(old(windowPath), HandEntries(result.hand[0].annotations, width, height))
        else old(windowPath)
      ensures FaceState(faceMesh, leftEye, rightEye) == if |result.face| > 0
        then FaceStep(FaceState(old(faceMesh), old(leftEye), old(rightEye)), faceTriangulation, result.face[0].meshRaw)
        else FaceState(old(faceMesh), old(leftEye), old(rightEye))
    {
      if |result.body| > 0 {
        Body(result.body[0], width, height, bodyFailing);
      }
      if |result.hand| > 0 {
        Hand(result.hand[0], width, height, handFailing);
      }
      if |result.face| > 0 {
        Face(result.face[0]);
      }
    }
  }
}

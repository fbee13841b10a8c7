/**
 * The face part of src/mesh.ts (`drawFace`): the landmark mesh flattened
 * into a position buffer with y flipped and stretched and z squashed, a
 * surface mesh named "face" whose triangles and texture coordinates come
 * from a module-level vertex data record, two iris spheres and one small
 * sphere per landmark beyond the irises.
 */
module MeshFace {
  import opened Wrappers
  import opened Human
  import opened Geometry
  import opened Mesh
  import Buffers

  const IrisDiameter: real := 0.5
  const AugmentDiameter: real := 0.005
  const AugmentPrefix: string := "augment"

  /** Slot k of landmark `pt`: x as is, `1 - 1.25 * y`, `(z || 0) / 1.5`. */
  function FaceSlot(pt: Point, k: nat): real
  {
    if k == 0 then Coord(pt, 0) else if k == 1 then 1.0 - 1.25 * Coord(pt, 1) else Coord(pt, 2) / 1.5
  }

  function FacePositions(raw: seq<Point>): seq<real>
  {
    Buffers.Layout(raw, FaceSlot)
  }

  /** `faceUVMap.flat()`. */
  function FlatUVs(uv: seq<(real, real)>): (r: seq<real>)
    ensures |r| == 2 * |uv|
    ensures forall i :: 0 <= i < |uv| ==> r[2 * i] == uv[i].0 && r[2 * i + 1] == uv[i].1
  {
    if uv == [] then [] else [uv[0].0, uv[0].1] + FlatUVs(uv[1..])
  }

  function NewSurface(): Mesh
  {
    Mesh("face", Surface([], [], []), Origin, Unit)
  }

  /** `applyToMesh`: the mesh takes all three arrays of the vertex data. */
  function Applied(face: Mesh, data: VertexData): Mesh
  {
    face.(shape := Surface(data.positions, data.indices, data.uvs))
  }

  /** `setVerticesData(PositionKind, ...)`: only the positions change. */
  function Repositioned(face: Mesh, positions: seq<real>): (r: Mesh)
    ensures r.shape.Surface? && r.shape.positions == positions
    ensures face.shape.Surface? ==> r.shape.indices == face.shape.indices && r.shape.uvs == face.shape.uvs
  {
    face.(shape := if face.shape.Surface? then face.shape.(positions := positions) else Surface(positions, [], []))
  }

  /** The surface update as written: vertex data is built and applied only
      while none exists, so a face mesh recreated after `init` never
      receives triangles or texture coordinates. */
  function SurfaceStepAsWritten(m: Registry, data: Option<VertexData>, positions: seq<real>,
    tri: seq<int>, uv: seq<(real, real)>): (Registry, Option<VertexData>)
  {
    var face := if "face" in m then m["face"] else NewSurface();
    if data.None? then
      var built := VertexData(positions, tri, FlatUVs(uv));
      (m["face" := Repositioned(Applied(face, built), positions)], Some(built))
    else (m["face" := Repositioned(face, positions)], data)
  }

  /** The surface update with vertex data also applied to a newly created
      face mesh. */
  function SurfaceStep(m: Registry, data: Option<VertexData>, positions: seq<real>,
    tri: seq<int>, uv: seq<(real, real)>): (Registry, Option<VertexData>)
  {
    var face := if "face" in m then m["face"] else NewSurface();
    if data.None? || "face" !in m then
      var built := VertexData(positions, tri, FlatUVs(uv));
      (m["face" := Repositioned(Applied(face, built), positions)], Some(built))
    else (m["face" := Repositioned(face, positions)], data)
  }

  function NewIris(name: string): Mesh
  {
    Mesh(name, Sphere(IrisDiameter), Origin, Unit)
  }

  /** `|x469 - x471| + |x474 - x476|` in the position buffer. */
  function IrisSize(p: seq<real>): (r: real)
    requires |p| >= 3 * IrisLandmarks
    ensures r >= 0.0
  {
    Abs(p[3 * 469 + 0] - p[3 * 471 + 0]) + Abs(p[3 * 474 + 0] - p[3 * 476 + 0])
  }

  /** Buffer point i with its depth divided by `depth`. */
  function BufferPoint(p: seq<real>, i: nat, depth: real): Vec3
    requires 3 * i + 2 < |p| && depth != 0.0
  {
    Vec3(p[3 * i + 0], p[3 * i + 1], p[3 * i + 2] / depth)
  }

  /** Both irises recreated when either is missing, then centred on
      landmarks 468 and 473 and scaled to the iris size. */
  function Irises(m: Registry, p: seq<real>): (r: Registry)
    requires |p| >= 3 * IrisLandmarks
  {
    var e := if "leftEye" !in m || "rightEye" !in m
      then m["leftEye" := NewIris("leftEye")]["rightEye" := NewIris("rightEye")] else m;
    var size := IrisSize(p);
    e["leftEye" := e["leftEye"].(position := BufferPoint(p, 468, 10.0), scaling := Uniform(size))]
     ["rightEye" := e["rightEye"].(position := BufferPoint(p, 473, 10.0), scaling := Uniform(size))]
  }

  /** The registry key of the sphere on landmark i: `augment${i}`. */
  function AugmentKey(i: nat): string
  {
    JointKey(AugmentPrefix, i)
  }

  /** The loop over landmarks `from` .. n-1 (from 478 in `drawFace`): each
      sphere created when missing and moved onto its landmark with depth
      divided by 20. */
  function Augmented(m: Registry, p: seq<real>, from: nat, n: nat): (r: Registry)
    requires from <= n && 3 * n <= |p|
  {
    if n == from then m else AugmentStep(Augmented(m, p, from, n - 1), p, n - 1)
  }

  /** One iteration: sphere i created when missing and moved onto buffer
      point i. */
  function AugmentStep(m: Registry, p: seq<real>, i: nat): (r: Registry)
    requires 3 * i + 2 < |p|
  {
    var key := AugmentKey(i);
    var sphere := if key in m then m[key] else Mesh(key, Sphere(AugmentDiameter), Origin, Unit);
    m[key := sphere.(position := BufferPoint(p, i, 20.0))]
  }

  /** `drawFace` after the camera is placed, as written. */
  function FaceStepAsWritten(m: Registry, data: Option<VertexData>, raw: seq<Point>,
    tri: seq<int>, uv: seq<(real, real)>): (Registry, Option<VertexData>)
  {
    if |raw| < FaceLandmarks then (m, data)
    else
      var p := FacePositions(raw);
      var s := SurfaceStepAsWritten(m, data, p, tri, uv);
      if |raw| < IrisLandmarks then s else (Augmented(Irises(s.0, p), p, IrisLandmarks, |raw|), s.1)
  }

  /** `drawFace` after the camera is placed, with the surface update that
      also covers a recreated face mesh. */
  function FaceStep(m: Registry, data: Option<VertexData>, raw: seq<Point>,
    tri: seq<int>, uv: seq<(real, real)>): (Registry, Option<VertexData>)
  {
    if |raw| < FaceLandmarks then (m, data)
    else
      var p := FacePositions(raw);
      var s := SurfaceStep(m, data, p, tri, uv);
      if |raw| < IrisLandmarks then s else (Augmented(Irises(s.0, p), p, IrisLandmarks, |raw|), s.1)
  }

  // ---------------------------------------------------------------------
  // Properties of the buffer-level steps.

  /** Augment keys start with "augment" and so never name the face or an
      iris. */
  lemma AugmentKeyApart(i: nat)
    ensures AugmentKey(i) != "face" && AugmentKey(i) != "leftEye" && AugmentKey(i) != "rightEye"
  {
    assert AugmentKey(i)[0] == 'a';
    assert "face"[0] == 'f' && "leftEye"[0] == 'l' && "rightEye"[0] == 'r';
  }

  /** k is the key of an augment sphere for one of the landmarks
      `from` .. n-1. */
  predicate AugmentOf(from: nat, n: nat, k: string)
  {
    exists i :: from <= i < n && k == AugmentKey(i)
  }

  lemma AugmentOfStep(from: nat, n: nat, k: string)
    requires from < n
    ensures AugmentOf(from, n, k) <==> k == AugmentKey(n - 1) || AugmentOf(from, n - 1, k)
  {
    if AugmentOf(from, n, k) && k != AugmentKey(n - 1) {
      var i :| from <= i < n && k == AugmentKey(i);
      assert i < n - 1;
    }
  }

  /** A landmark at or past n has no key among those below n. */
  lemma AugmentOfBelow(from: nat, n: nat, i: nat)
    requires n <= i
    ensures !AugmentOf(from, n, AugmentKey(i))
  {
    forall j | from <= j < n
      ensures AugmentKey(i) != AugmentKey(j)
    {
      JointKeysDiffer(AugmentPrefix, j, i);
    }
  }

  lemma {:induction false} AugmentedKeys(m: Registry, p: seq<real>, from: nat, n: nat, k: string)
    requires from <= n && 3 * n <= |p|
    ensures k in Augmented(m, p, from, n) <==> k in m || AugmentOf(from, n, k)
  {
    if n > from {
      AugmentedKeys(m, p, from, n - 1, k);
      AugmentOfStep(from, n, k);
    }
  }

  lemma {:induction false} AugmentedKeeps(m: Registry, p: seq<real>, from: nat, n: nat, k: string)
    requires from <= n && 3 * n <= |p|
    requires k in m && !AugmentOf(from, n, k)
    ensures k in Augmented(m, p, from, n) && Augmented(m, p, from, n)[k] == m[k]
  {
    if n > from {
      AugmentOfStep(from, n, k);
      AugmentedKeeps(m, p, from, n - 1, k);
    }
  }

  lemma AugmentStepAt(m: Registry, p: seq<real>, i: nat)
    requires 3 * i + 2 < |p|
    ensures AugmentKey(i) in AugmentStep(m, p, i)
    ensures AugmentStep(m, p, i)[AugmentKey(i)].position == BufferPoint(p, i, 20.0)
    ensures AugmentKey(i) !in m ==> AugmentStep(m, p, i)[AugmentKey(i)].shape == Sphere(AugmentDiameter)
  {
  }

  lemma AugmentStepOther(m: Registry, p: seq<real>, i: nat, k: string)
    requires 3 * i + 2 < |p| && k != AugmentKey(i)
    ensures k in AugmentStep(m, p, i) <==> k in m
    ensures k in m ==> AugmentStep(m, p, i)[k] == m[k]
  {
  }

  /** Sphere i ends on buffer point i with its depth divided by 20, and a
      sphere that did not exist before is one of diameter 0.005. */
  lemma {:induction false} AugmentedAt(m: Registry, p: seq<real>, from: nat, n: nat, i: nat)
    requires from <= i < n && 3 * n <= |p|
    ensures AugmentKey(i) in Augmented(m, p, from, n)
    ensures Augmented(m, p, from, n)[AugmentKey(i)].position == BufferPoint(p, i, 20.0)
    ensures AugmentKey(i) !in m ==> Augmented(m, p, from, n)[AugmentKey(i)].shape == Sphere(AugmentDiameter)
  {
    var r := Augmented(m, p, from, n - 1);
    if i < n - 1 {
      AugmentedAt(m, p, from, n - 1, i);
      JointKeysDiffer(AugmentPrefix, i, n - 1);
      AugmentStepOther(r, p, n - 1, AugmentKey(i));
    } else {
      AugmentStepAt(r, p, i);
      if AugmentKey(i) !in m {
        AugmentedKeys(m, p, from, n - 1, AugmentKey(i));
        AugmentOfBelow(from, n - 1, i);
      }
    }
  }

  /** Both irises exist afterwards, are recreated together when either was
      missing, and sit on landmarks 468 and 473 scaled to the iris size;
      nothing else changes. */
  lemma IrisesPlaced(m: Registry, p: seq<real>)
    requires |p| >= 3 * IrisLandmarks
    ensures var r := Irises(m, p);
      "leftEye" in r && "rightEye" in r
      && r["leftEye"].position == BufferPoint(p, 468, 10.0) && r["leftEye"].scaling == Uniform(IrisSize(p))
      && r["rightEye"].position == BufferPoint(p, 473, 10.0) && r["rightEye"].scaling == Uniform(IrisSize(p))
      && (("leftEye" !in m || "rightEye" !in m) ==>
        r["leftEye"].shape == Sphere(IrisDiameter) && r["rightEye"].shape == Sphere(IrisDiameter))
      && forall k :: k != "leftEye" && k != "rightEye" ==> (k in r <==> k in m) && (k in m ==> r[k] == m[k])
  {
    assert "leftEye" != "rightEye" by {
      assert "leftEye"[0] != "rightEye"[0];
    }
  }

  /** No augment key names the face or an iris. */
  lemma AugmentsApart(from: nat, n: nat)
    ensures !AugmentOf(from, n, "face") && !AugmentOf(from, n, "leftEye") && !AugmentOf(from, n, "rightEye")
  {
    forall i | from <= i < n
      ensures AugmentKey(i) != "face" && AugmentKey(i) != "leftEye" && AugmentKey(i) != "rightEye"
    {
      AugmentKeyApart(i);
    }
  }

  /** The iris and augment steps leave the face mesh alone. */
  lemma TailKeepsFace(m: Registry, p: seq<real>, n: nat)
    requires IrisLandmarks <= n && 3 * n <= |p| && "face" in m
    ensures "face" in Augmented(Irises(m, p), p, IrisLandmarks, n)
    ensures Augmented(Irises(m, p), p, IrisLandmarks, n)["face"] == m["face"]
  {
    IrisesPlaced(m, p);
    AugmentsApart(IrisLandmarks, n);
    AugmentedKeeps(Irises(m, p), p, IrisLandmarks, n, "face");
  }

  // ---------------------------------------------------------------------
  // Properties of `drawFace` in landmark terms.

  /** From 468 landmarks on, the face mesh exists and carries this frame's
      positions, and vertex data exists. When the face mesh is new or no
      vertex data existed, the face takes the triangulation and the
      flattened texture map and the vertex data is rebuilt from this frame;
      otherwise the vertex data and the face's triangles are kept. */
  lemma FaceStepSurface(m: Registry, data: Option<VertexData>, raw: seq<Point>, tri: seq<int>, uv: seq<(real, real)>)
    requires |raw| >= FaceLandmarks
    ensures var (r, d) := FaceStep(m, data, raw, tri, uv);
      "face" in r && r["face"].shape.Surface? && r["face"].shape.positions == FacePositions(raw)
      && |r["face"].shape.positions| == 3 * |raw|
      && d.Some?
      && (("face" !in m || data.None?) ==>
        r["face"].shape.indices == tri && r["face"].shape.uvs == FlatUVs(uv)
        && d == Some(VertexData(FacePositions(raw), tri, FlatUVs(uv))))
      && (("face" in m && data.Some?) ==>
        (d == data
         && (m["face"].shape.Surface? ==>
           r["face"].shape.indices == m["face"].shape.indices && r["face"].shape.uvs == m["face"].shape.uvs)))
  {
    var p := FacePositions(raw);
    var s := SurfaceStep(m, data, p, tri, uv);
    if |raw| >= IrisLandmarks {
      TailKeepsFace(s.0, p, |raw|);
    }
  }

  /** From 478 landmarks on, both irises sit on buffer points 468 and 473
      with depth divided by 10, scaled to the iris size; both are
      recreated when either was missing. */
  lemma FaceStepIrisBuffer(m: Registry, data: Option<VertexData>, raw: seq<Point>, tri: seq<int>, uv: seq<(real, real)>)
    requires |raw| >= IrisLandmarks
    ensures |FacePositions(raw)| == 3 * |raw|
    ensures var r := FaceStep(m, data, raw, tri, uv).0;
      var p := FacePositions(raw);
      "leftEye" in r && "rightEye" in r
      && r["leftEye"].position == BufferPoint(p, 468, 10.0) && r["rightEye"].position == BufferPoint(p, 473, 10.0)
      && r["leftEye"].scaling == Uniform(IrisSize(p)) && r["rightEye"].scaling == Uniform(IrisSize(p))
      && (("leftEye" !in m || "rightEye" !in m) ==>
        r["leftEye"].shape == Sphere(IrisDiameter) && r["rightEye"].shape == Sphere(IrisDiameter))
  {
    var p := FacePositions(raw);
    var s := SurfaceStep(m, data, p, tri, uv);
    var e := Irises(s.0, p);
    IrisesPlaced(s.0, p);
    assert "face" != "leftEye" && "face" != "rightEye" by {
      assert "face"[0] != "leftEye"[0] && "face"[0] != "rightEye"[0];
    }
    AugmentsApart(IrisLandmarks, |raw|);
    AugmentedKeeps(e, p, IrisLandmarks, |raw|, "leftEye");
    AugmentedKeeps(e, p, IrisLandmarks, |raw|, "rightEye");
  }

  /** The same in landmark terms: y flipped and stretched, depth divided
      by 15, and the size the sum of the horizontal spans of the two iris
      rings. */
  lemma FaceStepIrises(m: Registry, data: Option<VertexData>, raw: seq<Point>, tri: seq<int>, uv: seq<(real, real)>)
    requires |raw| >= IrisLandmarks
    ensures var r := FaceStep(m, data, raw, tri, uv).0;
      var size := Abs(Coord(raw[469], 0) - Coord(raw[471], 0)) + Abs(Coord(raw[474], 0) - Coord(raw[476], 0));
      "leftEye" in r && "rightEye" in r
      && r["leftEye"].position == Vec3(Coord(raw[468], 0), 1.0 - 1.25 * Coord(raw[468], 1), Coord(raw[468], 2) / 1.5 / 10.0)
      && r["rightEye"].position == Vec3(Coord(raw[473], 0), 1.0 - 1.25 * Coord(raw[473], 1), Coord(raw[473], 2) / 1.5 / 10.0)
      && r["leftEye"].scaling == Uniform(size) && r["rightEye"].scaling == Uniform(size)
      && (("leftEye" !in m || "rightEye" !in m) ==>
        r["leftEye"].shape == Sphere(IrisDiameter) && r["rightEye"].shape == Sphere(IrisDiameter))
  {
    FaceStepIrisBuffer(m, data, raw, tri, uv);
    IrisSlots(raw);
    FaceBufferPoint(raw, 468, 10.0);
    FaceBufferPoint(raw, 473, 10.0);
  }

  /** The buffer slots the iris step reads. */
  lemma IrisSlots(raw: seq<Point>)
    requires |raw| >= IrisLandmarks
    ensures var p := FacePositions(raw);
      |p| == 3 * |raw|
      && p[3 * 468 + 0] == Coord(raw[468], 0) && p[3 * 468 + 1] == 1.0 - 1.25 * Coord(raw[468], 1)
      && p[3 * 468 + 2] == Coord(raw[468], 2) / 1.5
      && p[3 * 473 + 0] == Coord(raw[473], 0) && p[3 * 473 + 1] == 1.0 - 1.25 * Coord(raw[473], 1)
      && p[3 * 473 + 2] == Coord(raw[473], 2) / 1.5
      && p[3 * 469] == Coord(raw[469], 0) && p[3 * 471] == Coord(raw[471], 0)
      && p[3 * 474] == Coord(raw[474], 0) && p[3 * 476] == Coord(raw[476], 0)
  {
    Buffers.LayoutSlots(raw, FaceSlot, 468, 0);
    Buffers.LayoutSlots(raw, FaceSlot, 468, 1);
    Buffers.LayoutSlots(raw, FaceSlot, 468, 2);
    Buffers.LayoutSlots(raw, FaceSlot, 473, 0);
    Buffers.LayoutSlots(raw, FaceSlot, 473, 1);
    Buffers.LayoutSlots(raw, FaceSlot, 473, 2);
    Buffers.LayoutSlots(raw, FaceSlot, 469, 0);
    Buffers.LayoutSlots(raw, FaceSlot, 471, 0);
    Buffers.LayoutSlots(raw, FaceSlot, 474, 0);
    Buffers.LayoutSlots(raw, FaceSlot, 476, 0);
  }

  /** Buffer point i of the face positions in landmark terms. */
  lemma FaceBufferPoint(raw: seq<Point>, i: nat, depth: real)
    requires i < |raw| && depth != 0.0
    ensures 3 * i + 2 < |FacePositions(raw)|
    ensures BufferPoint(FacePositions(raw), i, depth)
      == Vec3(Coord(raw[i], 0), 1.0 - 1.25 * Coord(raw[i], 1), Coord(raw[i], 2) / 1.5 / depth)
  {
    Buffers.LayoutSlots(raw, FaceSlot, i, 0);
    Buffers.LayoutSlots(raw, FaceSlot, i, 1);
    Buffers.LayoutSlots(raw, FaceSlot, i, 2);
  }

  /** Every landmark past the irises gets a sphere on its buffer point
      with depth divided by 20; a sphere that did not exist is one of
      diameter 0.005. */
  lemma FaceStepAugmentBuffer(m: Registry, data: Option<VertexData>, raw: seq<Point>, tri: seq<int>, uv: seq<(real, real)>, i: nat)
    requires IrisLandmarks <= i < |raw|
    ensures |FacePositions(raw)| == 3 * |raw|
    ensures var r := FaceStep(m, data, raw, tri, uv).0;
      AugmentKey(i) in r
      && r[AugmentKey(i)].position == BufferPoint(FacePositions(raw), i, 20.0)
      && (AugmentKey(i) !in m ==> r[AugmentKey(i)].shape == Sphere(AugmentDiameter))
  {
    var p := FacePositions(raw);
    var s := SurfaceStep(m, data, p, tri, uv);
    var e := Irises(s.0, p);
    AugmentedAt(e, p, IrisLandmarks, |raw|, i);
    AugmentKeyApart(i);
    IrisesPlaced(s.0, p);
  }

  /** The same in landmark terms: y flipped and stretched and depth
      divided by 30. */
  lemma FaceStepAugments(m: Registry, data: Option<VertexData>, raw: seq<Point>, tri: seq<int>, uv: seq<(real, real)>, i: nat)
    requires IrisLandmarks <= i < |raw|
    ensures var r := FaceStep(m, data, raw, tri, uv).0;
      AugmentKey(i) in r
      && r[AugmentKey(i)].position == Vec3(Coord(raw[i], 0), 1.0 - 1.25 * Coord(raw[i], 1), Coord(raw[i], 2) / 1.5 / 20.0)
      && (AugmentKey(i) !in m ==> r[AugmentKey(i)].shape == Sphere(AugmentDiameter))
  {
    var r := FaceStep(m, data, raw, tri, uv).0;
    FaceStepAugmentBuffer(m, data, raw, tri, uv, i);
    SphereOnLandmark(r, raw, i);
  }

  /** A registry whose sphere i sits on buffer point i sits on landmark i. */
  lemma SphereOnLandmark(r: Registry, raw: seq<Point>, i: nat)
    requires i < |raw| && |FacePositions(raw)| == 3 * |raw|
    requires AugmentKey(i) in r && r[AugmentKey(i)].position == BufferPoint(FacePositions(raw), i, 20.0)
    ensures r[AugmentKey(i)].position == Vec3(Coord(raw[i], 0), 1.0 - 1.25 * Coord(raw[i], 1), Coord(raw[i], 2) / 1.5 / 20.0)
  {
    FaceBufferPoint(raw, i, 20.0);
  }

  /** What keys a frame adds: below 468 landmarks none, below 478 only the
      face, from 478 on the face, the irises and one sphere per extra
      landmark. Every other mesh is left alone. */
  lemma FaceStepKeys(m: Registry, data: Option<VertexData>, raw: seq<Point>, tri: seq<int>, uv: seq<(real, real)>, k: string)
    ensures var (r, d) := FaceStep(m, data, raw, tri, uv);
      var touched := |raw| >= FaceLandmarks && (k == "face"
        || (|raw| >= IrisLandmarks && (k == "leftEye" || k == "rightEye" || AugmentOf(IrisLandmarks, |raw|, k))));
      (k in r <==> k in m || touched)
      && (|raw| < FaceLandmarks ==> d == data)
      && (!touched && k in m ==> r[k] == m[k])
  {
    if |raw| >= IrisLandmarks {
      var p := FacePositions(raw);
      var s := SurfaceStep(m, data, p, tri, uv);
      var e := Irises(s.0, p);
      IrisesPlaced(s.0, p);
      AugmentedKeys(e, p, IrisLandmarks, |raw|, k);
      if k != "face" && k != "leftEye" && k != "rightEye" && !AugmentOf(IrisLandmarks, |raw|, k) && k in m {
        AugmentedKeeps(e, p, IrisLandmarks, |raw|, k);
      }
    }
  }

  /** The fix changes nothing except for a face mesh recreated while
      vertex data exists. */
  lemma FaceStepAgrees(m: Registry, data: Option<VertexData>, raw: seq<Point>, tri: seq<int>, uv: seq<(real, real)>)
    requires "face" in m || data.None?
    ensures FaceStepAsWritten(m, data, raw, tri, uv) == FaceStep(m, data, raw, tri, uv)
  {
    var p := FacePositions(raw);
    assert SurfaceStepAsWritten(m, data, p, tri, uv) == SurfaceStep(m, data, p, tri, uv);
  }

  /** As written, a face mesh created again after `init` emptied the
      registry, while vertex data from an earlier frame still exists, gets
      this frame's positions but no triangles and no texture coordinates;
      with the fix it gets the triangulation and the texture map. */
  lemma RecreatedFaceUntriangulated(m: Registry, data: Option<VertexData>, raw: seq<Point>, tri: seq<int>, uv: seq<(real, real)>)
    requires "face" !in m && data.Some? && |raw| >= FaceLandmarks
    ensures var r := FaceStepAsWritten(m, data, raw, tri, uv).0;
      "face" in r && r["face"].shape == Surface(FacePositions(raw), [], [])
    ensures var r := FaceStep(m, data, raw, tri, uv).0;
      "face" in r && r["face"].shape == Surface(FacePositions(raw), tri, FlatUVs(uv))
  {
    var p := FacePositions(raw);
    var s := SurfaceStepAsWritten(m, data, p, tri, uv);
    if |raw| >= IrisLandmarks {
      TailKeepsFace(s.0, p, |raw|);
    }
    FaceStepSurface(m, data, raw, tri, uv);
  }
}

/**
 * The skeleton-mesh renderer of src/mesh.ts. All meshes live in one
 * registry keyed by name: one tube per body or hand part, one joint sphere
 * per path point (the part's name followed by the point's index), the
 * head, the face surface, the two irises and one sphere per extra face
 * landmark. Engine meshes are values recording their shape, position and
 * scaling; `Vector3.Distance` is a parameter.
 */
module Mesh {
  import opened Wrappers
  import opened Human
  import opened Geometry
  import opened Paths
  import opened Strings
  import Buffers

  const MaxSafeInteger: real := 9007199254740991.0
  const MinSafeInteger: real := -9007199254740991.0
  /** Diameter of a tube whose path has zero length. */
  const MinDiameter: real := 0.015
  /** Face landmarks without irises, and with them. */
  const FaceLandmarks: nat := 468
  const IrisLandmarks: nat := 478

  datatype Shape =
    | Tube(path: seq<Vec3>, radius: real)
    | Sphere(diameter: real)
    | Surface(positions: seq<real>, indices: seq<int>, uvs: seq<real>)

  datatype Mesh = Mesh(name: string, shape: Shape, position: Vec3, scaling: Vec3)

  datatype VertexData = VertexData(positions: seq<real>, indices: seq<int>, uvs: seq<real>)

  type Registry = map<string, Mesh>

  /** `Vector3.Distance`. */
  type Distance = (Vec3, Vec3) -> real

  // ---------------------------------------------------------------------
  // Camera framing: `maxmin` inside `centerCamera`.

  /** Component k counts only when it is truthy: neither 0 nor missing. */
  predicate Usable(pt: Point, k: nat)
  {
    Coord(pt, k) != 0.0
  }

  /** The running minimum of component k, starting at MAX_SAFE_INTEGER. */
  function MinAxis(pts: seq<Point>, k: nat): real
  {
    if pts == [] then MaxSafeInteger
    else
      var m, v := MinAxis(pts[..|pts| - 1], k), Coord(pts[|pts| - 1], k);
      if v != 0.0 && v < m then v else m
  }

  /** The running maximum of component k, starting at MIN_SAFE_INTEGER. */
  function MaxAxis(pts: seq<Point>, k: nat): real
  {
    if pts == [] then MinSafeInteger
    else
      var m, v := MaxAxis(pts[..|pts| - 1], k), Coord(pts[|pts| - 1], k);
      if v != 0.0 && v > m then v else m
  }

  /** The minimum is at most the sentinel and at most every usable value. */
  lemma {:induction false} MinAxisIsLower(pts: seq<Point>, k: nat)
    ensures MinAxis(pts, k) <= MaxSafeInteger
    ensures forall i :: 0 <= i < |pts| && Usable(pts[i], k) ==> MinAxis(pts, k) <= Coord(pts[i], k)
  {
    if pts != [] {
      var init := pts[..|pts| - 1];
      MinAxisIsLower(init, k);
      assert forall i :: 0 <= i < |init| ==> init[i] == pts[i];
    }
  }

  /** The minimum is the sentinel or some usable value. */
  lemma {:induction false} MinAxisAttained(pts: seq<Point>, k: nat)
    ensures MinAxis(pts, k) == MaxSafeInteger
      || exists i :: 0 <= i < |pts| && Usable(pts[i], k) && Coord(pts[i], k) == MinAxis(pts, k)
  {
    if pts != [] {
      var init := pts[..|pts| - 1];
      MinAxisAttained(init, k);
      if MinAxis(pts, k) != MaxSafeInteger && MinAxis(pts, k) == MinAxis(init, k) {
        var i :| 0 <= i < |init| && Usable(init[i], k) && Coord(init[i], k) == MinAxis(init, k);
        assert init[i] == pts[i];
      }
    }
  }

  /** An axis with no usable value keeps its sentinel. */
  lemma {:induction false} MinAxisSentinel(pts: seq<Point>, k: nat)
    requires forall i :: 0 <= i < |pts| ==> !Usable(pts[i], k)
    ensures MinAxis(pts, k) == MaxSafeInteger
  {
    if pts != [] {
      MinAxisSentinel(pts[..|pts| - 1], k);
    }
  }

  lemma {:induction false} MaxAxisIsUpper(pts: seq<Point>, k: nat)
    ensures MaxAxis(pts, k) >= MinSafeInteger
    ensures forall i :: 0 <= i < |pts| && Usable(pts[i], k) ==> MaxAxis(pts, k) >= Coord(pts[i], k)
  {
    if pts != [] {
      var init := pts[..|pts| - 1];
      MaxAxisIsUpper(init, k);
      assert forall i :: 0 <= i < |init| ==> init[i] == pts[i];
    }
  }

  lemma {:induction false} MaxAxisAttained(pts: seq<Point>, k: nat)
    ensures MaxAxis(pts, k) == MinSafeInteger
      || exists i :: 0 <= i < |pts| && Usable(pts[i], k) && Coord(pts[i], k) == MaxAxis(pts, k)
  {
    if pts != [] {
      var init := pts[..|pts| - 1];
      MaxAxisAttained(init, k);
      if MaxAxis(pts, k) != MinSafeInteger && MaxAxis(pts, k) == MaxAxis(init, k) {
        var i :| 0 <= i < |init| && Usable(init[i], k) && Coord(init[i], k) == MaxAxis(init, k);
        assert init[i] == pts[i];
      }
    }
  }

  lemma {:induction false} MaxAxisSentinel(pts: seq<Point>, k: nat)
    requires forall i :: 0 <= i < |pts| ==> !Usable(pts[i], k)
    ensures MaxAxis(pts, k) == MinSafeInteger
  {
    if pts != [] {
      MaxAxisSentinel(pts[..|pts| - 1], k);
    }
  }

  /** `maxmin`: the per-axis extremes of three axes. */
  method MaxMin(pts: seq<Point>) returns (max: seq<real>, min: seq<real>)
    ensures |max| == 3 && |min| == 3
    ensures forall k :: 0 <= k < 3 ==> min[k] == MinAxis(pts, k) && max[k] == MaxAxis(pts, k)
  {
    min := [MaxSafeInteger, MaxSafeInteger, MaxSafeInteger];
    max := [MinSafeInteger, MinSafeInteger, MinSafeInteger];
    for n := 0 to |pts|
      invariant |max| == 3 && |min| == 3
      invariant min[0] == MinAxis(pts[..n], 0) && min[1] == MinAxis(pts[..n], 1) && min[2] == MinAxis(pts[..n], 2)
      invariant max[0] == MaxAxis(pts[..n], 0) && max[1] == MaxAxis(pts[..n], 1) && max[2] == MaxAxis(pts[..n], 2)
    {
      var pt := pts[n];
      if Coord(pt, 0) != 0.0 && Coord(pt, 0) < min[0] { min := min[0 := Coord(pt, 0)]; }
      if Coord(pt, 1) != 0.0 && Coord(pt, 1) < min[1] { min := min[1 := Coord(pt, 1)]; }
      if Coord(pt, 2) != 0.0 && Coord(pt, 2) < min[2] { min := min[2 := Coord(pt, 2)]; }
      assert pts[..n + 1][..n] == pts[..n];
      assert min[0] == MinAxis(pts[..n + 1], 0) && min[1] == MinAxis(pts[..n + 1], 1) && min[2] == MinAxis(pts[..n + 1], 2);
      if Coord(pt, 0) != 0.0 && Coord(pt, 0) > max[0] { max := max[0 := Coord(pt, 0)]; }
      if Coord(pt, 1) != 0.0 && Coord(pt, 1) > max[1] { max := max[1 := Coord(pt, 1)]; }
      if Coord(pt, 2) != 0.0 && Coord(pt, 2) > max[2] { max := max[2 := Coord(pt, 2)]; }
    }
    assert pts[..|pts|] == pts;
  }

  /** `(hi - lo) / 2 + lo`: the midpoint, inside the range when it is one. */
  function Midpoint(lo: real, hi: real): (r: real)
    ensures 2.0 * r == lo + hi
    ensures lo <= hi ==> lo <= r <= hi
  {
    (hi - lo) / 2.0 + lo
  }

  // ---------------------------------------------------------------------
  // Tubes and joints: `pathLength` and `drawPath`.

  /** The registry key of joint i of a part: `desc + i`. */
  function JointKey(desc: string, i: nat): (key: string)
    ensures |key| > |desc|
  {
    desc + NatToString(i)
  }

  /** Distinct indices give distinct joint keys. */
  lemma JointKeysDiffer(desc: string, i: nat, j: nat)
    requires i != j
    ensures JointKey(desc, i) != JointKey(desc, j)
  {
    if JointKey(desc, i) == JointKey(desc, j) {
      SuffixedInjective(desc, i, j);
    }
  }

  /** `Math.abs(Vector3.Distance(path[0], path[path.length - 1]) * 0.1)`.
      An empty path has no first point and throws. */
  function PathLength(distance: Distance, path: seq<Vec3>): (r: real)
    requires |path| > 0
    ensures r >= 0.0
  {
    Abs(distance(path[0], path[|path| - 1]) * 0.1)
  }

  function Diameter(distance: Distance, path: seq<Vec3>): (r: real)
    requires |path| > 0
    ensures r >= MinDiameter
  {
    0.5 * PathLength(distance, path) + MinDiameter
  }

  function NewTube(desc: string, path: seq<Vec3>, diameter: real): Mesh
  {
    Mesh(desc, Tube(path, diameter / 2.0), Origin, Unit)
  }

  /** A joint sphere of diameter 1, sized later through its scaling. */
  function NewJoint(key: string): Mesh
  {
    Mesh(key, Sphere(1.0), Origin, Unit)
  }

  /** The first-sight loop: joints 0 .. n-1 created. */
  function WithJoints(m: Registry, desc: string, n: nat): (r: Registry)
    ensures m.Keys <= r.Keys
  {
    if n == 0 then m else WithJoints(m, desc, n - 1)[JointKey(desc, n - 1) := NewJoint(JointKey(desc, n - 1))]
  }

  predicate JointsPresent(m: Registry, desc: string, n: nat)
  {
    forall i :: 0 <= i < n ==> JointKey(desc, i) in m
  }

  /** The registry after the first-sight block: unchanged when the part is
      known, otherwise its tube and n joints added. */
  function Sighted(m: Registry, desc: string, path: seq<Vec3>, diameter: real): (r: Registry)
    ensures desc in r && m.Keys <= r.Keys
  {
    if desc in m then m else WithJoints(m[desc := NewTube(desc, path, diameter)], desc, |path|)
  }

  /** The tube rebuilt on the new path. */
  function Retubed(m: Registry, desc: string, path: seq<Vec3>, diameter: real): Registry
    requires desc in m
  {
    m[desc := m[desc].(shape := Tube(path, diameter / 2.0))]
  }

  /** The joint loop: joints 0 .. n-1 (created when missing) moved onto the
      path and scaled to 1.1 times the diameter. */
  function Placed(m: Registry, desc: string, path: seq<Vec3>, diameter: real, n: nat): (r: Registry)
    requires n <= |path|
    ensures m.Keys <= r.Keys
  {
    if n == 0 then m
    else
      var pm, key := Placed(m, desc, path, diameter, n - 1), JointKey(desc, n - 1);
      var joint := if key in pm then pm[key] else NewJoint(key);
      pm[key := joint.(position := path[n - 1], scaling := Uniform(1.1 * diameter))]
  }

  /** One `drawPath` call that completes. */
  function PathStep(m: Registry, desc: string, path: seq<Vec3>, diameter: real): (r: Registry)
    ensures desc in r && m.Keys <= r.Keys
  {
    var s := Sighted(m, desc, path, diameter);
    Placed(Retubed(s, desc, path, diameter), desc, path, diameter, |path|)
  }

  /** k is one of the first n joint keys of a part. */
  predicate JointOf(desc: string, n: nat, k: string)
  {
    exists i :: 0 <= i < n && k == JointKey(desc, i)
  }

  /** Joint n-1 and the joints before it make up the first n. */
  lemma JointOfStep(desc: string, n: nat, k: string)
    requires n > 0
    ensures JointOf(desc, n, k) <==> k == JointKey(desc, n - 1) || JointOf(desc, n - 1, k)
  {
    if JointOf(desc, n, k) && k != JointKey(desc, n - 1) {
      var i :| 0 <= i < n && k == JointKey(desc, i);
      assert i < n - 1;
    }
  }

  lemma {:induction false} WithJointsKeys(m: Registry, desc: string, n: nat, k: string)
    ensures k in WithJoints(m, desc, n) <==> k in m || JointOf(desc, n, k)
  {
    if n > 0 {
      WithJointsKeys(m, desc, n - 1, k);
      JointOfStep(desc, n, k);
    }
  }

  lemma {:induction false} WithJointsKeeps(m: Registry, desc: string, n: nat, k: string)
    requires k in m && !JointOf(desc, n, k)
    ensures k in WithJoints(m, desc, n) && WithJoints(m, desc, n)[k] == m[k]
  {
    if n > 0 {
      JointOfStep(desc, n, k);
      WithJointsKeeps(m, desc, n - 1, k);
    }
  }

  lemma {:induction false} PlacedKeys(m: Registry, desc: string, path: seq<Vec3>, diameter: real, n: nat, k: string)
    requires n <= |path|
    ensures k in Placed(m, desc, path, diameter, n) <==> k in m || JointOf(desc, n, k)
  {
    if n > 0 {
      PlacedKeys(m, desc, path, diameter, n - 1, k);
      JointOfStep(desc, n, k);
    }
  }

  lemma {:induction false} PlacedKeeps(m: Registry, desc: string, path: seq<Vec3>, diameter: real, n: nat, k: string)
    requires n <= |path|
    requires k in m && !JointOf(desc, n, k)
    ensures k in Placed(m, desc, path, diameter, n) && Placed(m, desc, path, diameter, n)[k] == m[k]
  {
    if n > 0 {
      JointOfStep(desc, n, k);
      PlacedKeeps(m, desc, path, diameter, n - 1, k);
    }
  }

  /** Every joint 0 .. n-1 ends on its path point, scaled to the diameter. */
  lemma {:induction false} PlacedAt(m: Registry, desc: string, path: seq<Vec3>, diameter: real, n: nat, i: nat)
    requires i < n <= |path|
    ensures JointKey(desc, i) in Placed(m, desc, path, diameter, n)
    ensures Placed(m, desc, path, diameter, n)[JointKey(desc, i)].position == path[i]
    ensures Placed(m, desc, path, diameter, n)[JointKey(desc, i)].scaling == Uniform(1.1 * diameter)
  {
    var pm := Placed(m, desc, path, diameter, n - 1);
    var last := JointKey(desc, n - 1);
    var joint := if last in pm then pm[last] else NewJoint(last);
    assert Placed(m, desc, path, diameter, n) == pm[last := joint.(position := path[n - 1], scaling := Uniform(1.1 * diameter))];
    if i < n - 1 {
      JointKeysDiffer(desc, i, n - 1);
      PlacedAt(m, desc, path, diameter, n - 1, i);
    }
  }


  /** After a completed `drawPath`, the part's tube follows the path with
      half the diameter as radius, and joint i sits on point i. */
  lemma PathStepDraws(m: Registry, desc: string, path: seq<Vec3>, diameter: real, i: nat)
    requires i < |path|
    ensures var r := PathStep(m, desc, path, diameter);
      desc in r && r[desc].shape == Tube(path, diameter / 2.0)
      && JointKey(desc, i) in r && r[JointKey(desc, i)].position == path[i]
      && r[JointKey(desc, i)].scaling == Uniform(1.1 * diameter)
  {
    var t := Retubed(Sighted(m, desc, path, diameter), desc, path, diameter);
    PlacedKeeps(t, desc, path, diameter, |path|, desc);
    PlacedAt(t, desc, path, diameter, |path|, i);
  }

  /** The keys a part owns: its tube and its first n joints. */
  predicate Owns(desc: string, n: nat, k: string)
  {
    k == desc || JointOf(desc, n, k)
  }

  /** A completed `drawPath` adds exactly the part's tube and joints that
      were missing, on first sight and on later calls alike. */
  lemma PathStepKeys(m: Registry, desc: string, path: seq<Vec3>, diameter: real, k: string)
    ensures k in PathStep(m, desc, path, diameter) <==> k in m || Owns(desc, |path|, k)
  {
    var t := Retubed(Sighted(m, desc, path, diameter), desc, path, diameter);
    if desc !in m {
      WithJointsKeys(m[desc := NewTube(desc, path, diameter)], desc, |path|, k);
    }
    PlacedKeys(t, desc, path, diameter, |path|, k);
  }

  /** After a completed `drawPath` every joint of the path exists. */
  lemma PathStepJoints(m: Registry, desc: string, path: seq<Vec3>, diameter: real)
    ensures JointsPresent(PathStep(m, desc, path, diameter), desc, |path|)
  {
    forall i | 0 <= i < |path| ensures JointKey(desc, i) in PathStep(m, desc, path, diameter) {
      PathStepDraws(m, desc, path, diameter, i);
    }
  }

  /** Keys not of the part are left alone. */
  lemma PathStepOthers(m: Registry, desc: string, path: seq<Vec3>, diameter: real, k: string)
    requires !Owns(desc, |path|, k)
    ensures k in PathStep(m, desc, path, diameter) <==> k in m
    ensures k in m ==> PathStep(m, desc, path, diameter)[k] == m[k]
  {
    var t := Retubed(Sighted(m, desc, path, diameter), desc, path, diameter);
    if desc !in m {
      WithJointsKeys(m[desc := NewTube(desc, path, diameter)], desc, |path|, k);
      if k in m {
        WithJointsKeeps(m[desc := NewTube(desc, path, diameter)], desc, |path|, k);
      }
    }
    PlacedKeys(t, desc, path, diameter, |path|, k);
    if k in m {
      PlacedKeeps(t, desc, path, diameter, |path|, k);
    }
  }

  // `drawPath` as written: the joint loop moves joints 0, 1, ... and
  // throws on the first one that was never created.

  /** How many joints the loop as written moves before it reaches one that
      does not exist: all n when they all exist. */
  function FirstMissingJoint(t: Registry, desc: string, n: nat): (i: nat)
    ensures i <= n && JointsPresent(t, desc, i)
    ensures i < n ==> JointKey(desc, i) !in t
  {
    if n == 0 then 0
    else
      var p := FirstMissingJoint(t, desc, n - 1);
      if p < n - 1 || JointKey(desc, n - 1) !in t then p else n
  }

  /** A count with the two properties of `FirstMissingJoint` is that count. */
  lemma FirstMissingJointUnique(t: Registry, desc: string, n: nat, p: nat)
    requires p <= n && JointsPresent(t, desc, p)
    requires p < n ==> JointKey(desc, p) !in t
    ensures p == FirstMissingJoint(t, desc, n)
  {
  }

  lemma JointOfMonotone(desc: string, a: nat, b: nat, k: string)
    requires a <= b && JointOf(desc, a, k)
    ensures JointOf(desc, b, k)
  {
    var i :| 0 <= i < a && k == JointKey(desc, i);
    assert 0 <= i < b;
  }

  /** One `drawPath` call on a non-empty path as written: the registry it
      leaves, and whether it completes. It completes exactly when every
      joint of the path exists once the part's tube is in place, and then
      it agrees with the completing step. */
  function PathStepAsWritten(m: Registry, desc: string, path: seq<Vec3>, diameter: real): (r: (Registry, bool))
    ensures r.1 <==> JointsPresent(Retubed(Sighted(m, desc, path, diameter), desc, path, diameter), desc, |path|)
    ensures r.1 ==> r.0 == PathStep(m, desc, path, diameter)
    ensures m.Keys <= r.0.Keys
  {
    var t := Retubed(Sighted(m, desc, path, diameter), desc, path, diameter);
    var placed := FirstMissingJoint(t, desc, |path|);
    (Placed(t, desc, path, diameter, placed), placed == |path|)
  }

  /** A loop that moved the joints up to the first one missing leaves what
      the call as written leaves. */
  lemma PathStepAsWrittenIs(m: Registry, desc: string, path: seq<Vec3>, diameter: real, placed: nat, r: Registry)
    requires var t := Retubed(Sighted(m, desc, path, diameter), desc, path, diameter);
      placed <= |path| && JointsPresent(t, desc, placed) && (placed < |path| ==> JointKey(desc, placed) !in t)
      && r == Placed(t, desc, path, diameter, placed)
    ensures (r, placed == |path|) == PathStepAsWritten(m, desc, path, diameter)
  {
    FirstMissingJointUnique(Retubed(Sighted(m, desc, path, diameter), desc, path, diameter), desc, |path|, placed);
  }

  /** A part already drawn whose new path reaches a joint the registry
      lacks throws: the first-sight block is skipped, so nobody creates it. */
  lemma GrownPathThrows(m: Registry, desc: string, path: seq<Vec3>, diameter: real, i: nat)
    requires desc in m && i < |path| && JointKey(desc, i) !in m
    ensures !PathStepAsWritten(m, desc, path, diameter).1
  {
    var t := Retubed(Sighted(m, desc, path, diameter), desc, path, diameter);
    assert JointKey(desc, i) != desc by {
      assert |JointKey(desc, i)| > |desc|;
    }
    assert JointKey(desc, i) !in t;
  }

  /** Keys not of the part are left alone by the call as written, whether
      or not it completes. */
  lemma PathStepAsWrittenOthers(m: Registry, desc: string, path: seq<Vec3>, diameter: real, k: string)
    requires !Owns(desc, |path|, k)
    ensures k in PathStepAsWritten(m, desc, path, diameter).0 <==> k in m
    ensures k in m ==> PathStepAsWritten(m, desc, path, diameter).0[k] == m[k]
  {
    var t := Retubed(Sighted(m, desc, path, diameter), desc, path, diameter);
    var placed := FirstMissingJoint(t, desc, |path|);
    if desc !in m {
      WithJointsKeys(m[desc := NewTube(desc, path, diameter)], desc, |path|, k);
      if k in m {
        WithJointsKeeps(m[desc := NewTube(desc, path, diameter)], desc, |path|, k);
      }
    }
    if JointOf(desc, placed, k) {
      JointOfMonotone(desc, placed, |path|, k);
    }
    PlacedKeys(t, desc, path, diameter, placed, k);
    if k in m {
      PlacedKeeps(t, desc, path, diameter, placed, k);
    }
  }

  // ---------------------------------------------------------------------
  // Camera placement: the end state of `centerCamera`.

  /** Centred on the x and y ranges, at depth 0. */
  function CameraTarget(pts: seq<Point>): Vec3
  {
    Vec3(Midpoint(MinAxis(pts, 0), MaxAxis(pts, 0)), Midpoint(MinAxis(pts, 1), MaxAxis(pts, 1)), 0.0)
  }

  /** Above the target at the top of the y range, 13 units in front. */
  function CameraPosition(pts: seq<Point>): Vec3
  {
    Vec3(Midpoint(MinAxis(pts, 0), MaxAxis(pts, 0)), MaxAxis(pts, 1), -13.0)
  }

  /** The camera looks along z at the middle of the points: the target
      lies within the range of usable x and of usable y values, and the
      camera is level with the highest usable y. A frame with no usable
      value centres on the origin. */
  lemma CameraFrames(pts: seq<Point>)
    ensures CameraPosition(pts).x == CameraTarget(pts).x && CameraTarget(pts).z == 0.0
    ensures CameraPosition(pts).z == -13.0
    ensures forall i :: 0 <= i < |pts| && Usable(pts[i], 0) ==>
      MinAxis(pts, 0) <= CameraTarget(pts).x <= MaxAxis(pts, 0)
    ensures forall i :: 0 <= i < |pts| && Usable(pts[i], 1) ==>
      MinAxis(pts, 1) <= CameraTarget(pts).y <= CameraPosition(pts).y
    ensures (forall i :: 0 <= i < |pts| ==> !Usable(pts[i], 0)) ==> CameraTarget(pts).x == 0.0
    ensures (forall i :: 0 <= i < |pts| ==> !Usable(pts[i], 1)) ==>
      CameraTarget(pts).y == 0.0 && CameraPosition(pts).y == MinSafeInteger
  {
    MinAxisIsLower(pts, 0);
    MaxAxisIsUpper(pts, 0);
    MinAxisIsLower(pts, 1);
    MaxAxisIsUpper(pts, 1);
    if forall i :: 0 <= i < |pts| ==> !Usable(pts[i], 0) {
      MinAxisSentinel(pts, 0);
      MaxAxisSentinel(pts, 0);
    }
    if forall i :: 0 <= i < |pts| ==> !Usable(pts[i], 1) {
      MinAxisSentinel(pts, 1);
      MaxAxisSentinel(pts, 1);
    }
  }

  // ---------------------------------------------------------------------
  // Body parts: `drawBody`.

  /** A part name with the path built for it this frame. */
  type Entry = (string, seq<Vec3>)

  /** Every sub-part point of every annotation mapped, in order. */
  function BodyEntries(ann: seq<(string, seq<seq<Point>>)>, width: Dim, height: Dim): (r: seq<Entry>)
    ensures |r| == |ann|
    ensures forall j :: 0 <= j < |ann| ==> r[j] == (ann[j].0, FullPath(Flatten(ann[j].1), width, height))
  {
    seq(|ann|, j requires 0 <= j < |ann| => (ann[j].0, FullPath(Flatten(ann[j].1), width, height)))
  }

  /** The `drawPath` calls of a frame taken in order. The first empty path
      throws; nothing after it runs and the flag is false. */
  function DrawPaths(distance: Distance, m: Registry, entries: seq<Entry>): (Registry, bool)
  {
    if entries == [] then (m, true)
    else
      var before := DrawPaths(distance, m, entries[..|entries| - 1]);
      var e := entries[|entries| - 1];
      if !before.1 || |e.1| == 0 then (before.0, false)
      else (PathStep(before.0, e.0, e.1, Diameter(distance, e.1)), true)
  }

  /** No entry has an empty path. */
  predicate AllDrawable(entries: seq<Entry>)
  {
    forall j :: 0 <= j < |entries| ==> |entries[j].1| > 0
  }

  lemma AllDrawableSnoc(entries: seq<Entry>)
    requires entries != []
    ensures AllDrawable(entries) <==> AllDrawable(entries[..|entries| - 1]) && |entries[|entries| - 1].1| > 0
  {
    var init := entries[..|entries| - 1];
    assert forall j :: 0 <= j < |init| ==> init[j] == entries[j];
  }

  /** The frame completes exactly when no path is empty. */
  lemma {:induction false} DrawPathsOk(distance: Distance, m: Registry, entries: seq<Entry>)
    ensures DrawPaths(distance, m, entries).1 <==> AllDrawable(entries)
  {
    if entries != [] {
      DrawPathsOk(distance, m, entries[..|entries| - 1]);
      AllDrawableSnoc(entries);
    }
  }

  /** An empty path freezes the registry: the frame ends as it was just
      before that entry. */
  lemma {:induction false} DrawPathsStops(distance: Distance, m: Registry, entries: seq<Entry>, j: nat)
    requires j < |entries| && |entries[j].1| == 0
    ensures DrawPaths(distance, m, entries) == (DrawPaths(distance, m, entries[..j]).0, false)
  {
    var init := entries[..|entries| - 1];
    if j < |entries| - 1 {
      assert init[j] == entries[j];
      DrawPathsStops(distance, m, init, j);
      assert init[..j] == entries[..j];
    }
  }

  /** Some entry's part owns key k. */
  predicate OwnedBy(entries: seq<Entry>, k: string)
  {
    exists j :: 0 <= j < |entries| && Owns(entries[j].0, |entries[j].1|, k)
  }

  lemma OwnedBySnoc(entries: seq<Entry>, k: string)
    requires entries != []
    ensures var e := entries[|entries| - 1];
      OwnedBy(entries, k) <==> OwnedBy(entries[..|entries| - 1], k) || Owns(e.0, |e.1|, k)
  {
    var init := entries[..|entries| - 1];
    assert forall j :: 0 <= j < |init| ==> init[j] == entries[j];
    if OwnedBy(entries, k) && !OwnedBy(init, k) {
      var j :| 0 <= j < |entries| && Owns(entries[j].0, |entries[j].1|, k);
      assert j == |entries| - 1;
    }
  }

  /** A completed frame adds exactly the keys its parts own. */
  lemma {:induction false} DrawPathsKeys(distance: Distance, m: Registry, entries: seq<Entry>, k: string)
    requires DrawPaths(distance, m, entries).1
    ensures k in DrawPaths(distance, m, entries).0 <==> k in m || OwnedBy(entries, k)
  {
    if entries != [] {
      var init := entries[..|entries| - 1];
      var e := entries[|entries| - 1];
      DrawPathsKeys(distance, m, init, k);
      PathStepKeys(DrawPaths(distance, m, init).0, e.0, e.1, Diameter(distance, e.1), k);
      OwnedBySnoc(entries, k);
    }
  }

  /** Keys owned by no part are left alone, whether or not the frame
      completes. */
  lemma {:induction false} DrawPathsOthers(distance: Distance, m: Registry, entries: seq<Entry>, k: string)
    requires !OwnedBy(entries, k)
    ensures k in DrawPaths(distance, m, entries).0 <==> k in m
    ensures k in m ==> DrawPaths(distance, m, entries).0[k] == m[k]
  {
    if entries != [] {
      var init := entries[..|entries| - 1];
      var e := entries[|entries| - 1];
      OwnedBySnoc(entries, k);
      DrawPathsOthers(distance, m, init, k);
      if |e.1| > 0 {
        PathStepOthers(DrawPaths(distance, m, init).0, e.0, e.1, Diameter(distance, e.1), k);
      }
    }
  }

  /** The `drawPath` calls of a frame as written: besides an empty path, a
      part whose path has grown since it was first seen throws. */
  function DrawPathsAsWritten(distance: Distance, m: Registry, entries: seq<Entry>): (Registry, bool)
  {
    if entries == [] then (m, true)
    else
      var before := DrawPathsAsWritten(distance, m, entries[..|entries| - 1]);
      var e := entries[|entries| - 1];
      if !before.1 || |e.1| == 0 then (before.0, false)
      else PathStepAsWritten(before.0, e.0, e.1, Diameter(distance, e.1))
  }

  /** A frame that completes as written is the frame of the corrected
      loop. */
  lemma {:induction false} DrawPathsAsWrittenAgrees(distance: Distance, m: Registry, entries: seq<Entry>)
    requires DrawPathsAsWritten(distance, m, entries).1
    ensures DrawPathsAsWritten(distance, m, entries) == DrawPaths(distance, m, entries)
  {
    if entries != [] {
      DrawPathsAsWrittenAgrees(distance, m, entries[..|entries| - 1]);
    }
  }

  /** No call as written removes a key. */
  lemma {:induction false} DrawPathsAsWrittenKeeps(distance: Distance, m: Registry, entries: seq<Entry>, k: string)
    requires k in m
    ensures k in DrawPathsAsWritten(distance, m, entries).0
  {
    if entries != [] {
      DrawPathsAsWrittenKeeps(distance, m, entries[..|entries| - 1], k);
    }
  }

  /** Keys owned by no part are left alone as written too. */
  lemma {:induction false} DrawPathsAsWrittenOthers(distance: Distance, m: Registry, entries: seq<Entry>, k: string)
    requires !OwnedBy(entries, k)
    ensures k in DrawPathsAsWritten(distance, m, entries).0 <==> k in m
    ensures k in m ==> DrawPathsAsWritten(distance, m, entries).0[k] == m[k]
  {
    if entries != [] {
      var init := entries[..|entries| - 1];
      var e := entries[|entries| - 1];
      OwnedBySnoc(entries, k);
      DrawPathsAsWrittenOthers(distance, m, init, k);
      var before := DrawPathsAsWritten(distance, m, init);
      if before.1 && |e.1| > 0 {
        PathStepAsWrittenOthers(before.0, e.0, e.1, Diameter(distance, e.1), k);
      }
    }
  }

  /** A part already in the registry whose path reaches joint i, which
      neither the registry nor an earlier part of the frame has, makes the
      frame throw as written. */
  lemma {:induction false} DrawPathsAsWrittenGrown(distance: Distance, m: Registry, entries: seq<Entry>, j: nat, i: nat)
    requires j < |entries| && entries[j].0 in m && i < |entries[j].1|
    requires JointKey(entries[j].0, i) !in m && !OwnedBy(entries[..j], JointKey(entries[j].0, i))
    ensures !DrawPathsAsWritten(distance, m, entries).1
  {
    var init := entries[..|entries| - 1];
    if j < |entries| - 1 {
      assert init[j] == entries[j] && init[..j] == entries[..j];
      DrawPathsAsWrittenGrown(distance, m, init, j, i);
    } else {
      assert init == entries[..j];
      var before := DrawPathsAsWritten(distance, m, init);
      var e := entries[j];
      if before.1 {
        DrawPathsAsWrittenKeeps(distance, m, init, e.0);
        DrawPathsAsWrittenOthers(distance, m, init, JointKey(e.0, i));
        GrownPathThrows(before.0, e.0, e.1, Diameter(distance, e.1), i);
      }
    }
  }

  /** `keypoints.filter((kpt) => kpt.score > 0).map((kpt) => kpt.positionRaw)`. */
  function ScoredRaw(kpts: seq<BodyKeypoint>): (r: seq<Point>)
    ensures |r| <= |kpts|
    ensures forall p :: p in r <==> exists i :: 0 <= i < |kpts| && kpts[i].score > 0.0 && kpts[i].positionRaw == p
  {
    if kpts == [] then []
    else
      var init := ScoredRaw(kpts[..|kpts| - 1]);
      var last := kpts[|kpts| - 1];
      assert forall i :: 0 <= i < |kpts| - 1 ==> kpts[..|kpts| - 1][i] == kpts[i];
      init + (if last.score > 0.0 then [last.positionRaw] else [])
  }

  // ---------------------------------------------------------------------
  // The head: `drawHead`.

  const HeadDiameter: real := 0.1

  /** `center([a, b])`: the component-wise mean of two points. */
  function Center(a: Point, b: Point): (c: Point)
    ensures |c| == 3
    ensures forall k :: 0 <= k < 3 ==> 2.0 * c[k] == Coord(a, k) + Coord(b, k)
  {
    [(Coord(a, 0) + Coord(b, 0)) / 2.0, (Coord(a, 1) + Coord(b, 1)) / 2.0, (Coord(a, 2) + Coord(b, 2)) / 2.0]
  }

  /** `new Vector3(...pt)`. */
  function AsVec3(pt: Point): Vec3
  {
    Vec3(Coord(pt, 0), Coord(pt, 1), Coord(pt, 2))
  }

  /** The two ends of the neck, the head centre and the head size, from
      the eye and shoulder positions. */
  datatype Head = Head(neckBase: Point, neckEnd: Point, centre: Point, size: real)

  function HeadGeometry(distance: Distance, le: Point, re: Point, ls: Point, rs: Point): (g: Head)
    ensures |g.centre| == 3
  {
    var eyeBase := Center(le, re);
    var neckBase := Center(ls, rs);
    var neckEnd := Center(neckBase, eyeBase);
    Head(neckBase, neckEnd, Center(neckEnd, eyeBase), 0.5 * PathLength(distance, [AsVec3(le), AsVec3(re)]) + 0.2)
  }

  /** The head sits three quarters of the way from the shoulder centre to
      the eye centre, the neck runs from the shoulder centre halfway there,
      and the head is at least 0.2 across. */
  lemma HeadProportions(distance: Distance, le: Point, re: Point, ls: Point, rs: Point)
    ensures var g := HeadGeometry(distance, le, re, ls, rs);
      g.size >= 0.2
      && forall k :: 0 <= k < 3 ==>
        2.0 * g.neckBase[k] == Coord(ls, k) + Coord(rs, k)
        && 2.0 * g.neckEnd[k] == g.neckBase[k] + (Coord(le, k) + Coord(re, k)) / 2.0
        && 4.0 * g.centre[k] == g.neckBase[k] + 3.0 * (Coord(le, k) + Coord(re, k)) / 2.0
  {
    var g := HeadGeometry(distance, le, re, ls, rs);
    var eyeBase := Center(le, re);
    forall k | 0 <= k < 3
      ensures 4.0 * g.centre[k] == g.neckBase[k] + 3.0 * (Coord(le, k) + Coord(re, k)) / 2.0
    {
      assert 2.0 * g.centre[k] == g.neckEnd[k] + eyeBase[k];
    }
  }

  function NewHead(): Mesh
  {
    Mesh("head", Sphere(HeadDiameter), Origin, Unit)
  }

  /** The neck path: `[norm(neckBase), norm(neckEnd)]`. */
  function NeckPath(g: Head, width: Dim, height: Dim): (path: seq<Vec3>)
    ensures |path| == 2
  {
    [Norm(g.neckBase, width, height), Norm(g.neckEnd, width, height)]
  }

  /** `drawHead` once the scene is initialized: the head sphere is created
      when missing; a missing eye or shoulder keypoint then throws;
      otherwise the neck is drawn as a part and the head is moved and
      scaled. */
  function HeadStep(distance: Distance, m: Registry, kpts: seq<BodyKeypoint>, width: Dim, height: Dim): (Registry, bool)
  {
    var withHead := if "head" in m then m else m["head" := NewHead()];
    var le, re := FindKeypoint(kpts, "leftEye"), FindKeypoint(kpts, "rightEye");
    var ls, rs := FindKeypoint(kpts, "leftShoulder"), FindKeypoint(kpts, "rightShoulder");
    if le.None? || re.None? || ls.None? || rs.None? then (withHead, false)
    else
      var g := HeadGeometry(distance, le.value.position, re.value.position, ls.value.position, rs.value.position);
      (PlaceHead(distance, withHead, g, width, height), true)
  }

  /** The neck drawn as a part, then the head moved and scaled. */
  function PlaceHead(distance: Distance, m: Registry, g: Head, width: Dim, height: Dim): Registry
    requires "head" in m
  {
    var neck := NeckPath(g, width, height);
    var r := PathStep(m, "neck", neck, Diameter(distance, neck));
    r["head" := r["head"].(position := Norm(g.centre, width, height), scaling := Vec3(g.size, 1.1 * g.size, g.size))]
  }

  /** The head step completes exactly when the four keypoints are found,
      and the head exists afterwards either way; a step that throws has
      changed nothing but the head. */
  lemma HeadStepOk(distance: Distance, m: Registry, kpts: seq<BodyKeypoint>, width: Dim, height: Dim)
    ensures "head" in HeadStep(distance, m, kpts, width, height).0
    ensures HeadStep(distance, m, kpts, width, height).1 <==>
      FindKeypoint(kpts, "leftEye").Some? && FindKeypoint(kpts, "rightEye").Some?
      && FindKeypoint(kpts, "leftShoulder").Some? && FindKeypoint(kpts, "rightShoulder").Some?
    ensures !HeadStep(distance, m, kpts, width, height).1 ==>
      var r := HeadStep(distance, m, kpts, width, height).0;
      forall k :: k != "head" ==> (k in r <==> k in m) && (k in m ==> r[k] == m[k])
  {
  }

  /** Placing the head puts it at the scaled centre, 1.1 times taller
      than wide, and draws the neck tube along the neck path. */
  lemma HeadPlaced(distance: Distance, m: Registry, g: Head, width: Dim, height: Dim)
    requires "head" in m
    ensures var r := PlaceHead(distance, m, g, width, height);
      var neck := NeckPath(g, width, height);
      r["head"].position == Norm(g.centre, width, height)
      && r["head"].scaling == Vec3(g.size, 1.1 * g.size, g.size)
      && "neck" in r && r["neck"].shape == Tube(neck, Diameter(distance, neck) / 2.0)
  {
    var neck := NeckPath(g, width, height);
    PathStepDraws(m, "neck", neck, Diameter(distance, neck), 0);
    assert "neck" != "head" by {
      assert "neck"[0] != "head"[0];
    }
  }

  /** `drawBody` once the camera is placed: the parts in annotation order,
      then the head; an empty path or a missing keypoint throws. */
  function BodyStep(distance: Distance, m: Registry, body: BodyResult, width: Dim, height: Dim): (Registry, bool)
  {
    var parts := DrawPaths(distance, m, BodyEntries(body.annotations, width, height));
    if !parts.1 then parts else HeadStep(distance, parts.0, body.keypoints, width, height)
  }

  /** The end of `drawHead` as written: the neck's `drawPath` may throw,
      and then the head is not moved. */
  function PlaceHeadAsWritten(distance: Distance, m: Registry, g: Head, width: Dim, height: Dim): (Registry, bool)
    requires "head" in m
  {
    var neck := NeckPath(g, width, height);
    var (r, ok) := PathStepAsWritten(m, "neck", neck, Diameter(distance, neck));
    if !ok then (r, false)
    else (r["head" := r["head"].(position := Norm(g.centre, width, height), scaling := Vec3(g.size, 1.1 * g.size, g.size))], true)
  }

  /** `drawHead` as written. */
  function HeadStepAsWritten(distance: Distance, m: Registry, kpts: seq<BodyKeypoint>, width: Dim, height: Dim): (Registry, bool)
  {
    var withHead := if "head" in m then m else m["head" := NewHead()];
    var le, re := FindKeypoint(kpts, "leftEye"), FindKeypoint(kpts, "rightEye");
    var ls, rs := FindKeypoint(kpts, "leftShoulder"), FindKeypoint(kpts, "rightShoulder");
    if le.None? || re.None? || ls.None? || rs.None? then (withHead, false)
    else
      var g := HeadGeometry(distance, le.value.position, re.value.position, ls.value.position, rs.value.position);
      PlaceHeadAsWritten(distance, withHead, g, width, height)
  }

  /** A head step that completes as written is the corrected one, and it
      completes only when the four keypoints are found. */
  lemma HeadStepAsWrittenAgrees(distance: Distance, m: Registry, kpts: seq<BodyKeypoint>, width: Dim, height: Dim)
    requires HeadStepAsWritten(distance, m, kpts, width, height).1
    ensures HeadStepAsWritten(distance, m, kpts, width, height) == HeadStep(distance, m, kpts, width, height)
    ensures HeadStep(distance, m, kpts, width, height).1
  {
  }

  /** `drawBody` as written, once the camera is placed. */
  function BodyStepAsWritten(distance: Distance, m: Registry, body: BodyResult, width: Dim, height: Dim): (Registry, bool)
  {
    var parts := DrawPathsAsWritten(distance, m, BodyEntries(body.annotations, width, height));
    if !parts.1 then parts else HeadStepAsWritten(distance, parts.0, body.keypoints, width, height)
  }

  /** A body step that completes as written is the corrected one. */
  lemma BodyStepAsWrittenAgrees(distance: Distance, m: Registry, body: BodyResult, width: Dim, height: Dim)
    requires BodyStepAsWritten(distance, m, body, width, height).1
    ensures BodyStepAsWritten(distance, m, body, width, height) == BodyStep(distance, m, body, width, height)
  {
    var entries := BodyEntries(body.annotations, width, height);
    DrawPathsAsWrittenAgrees(distance, m, entries);
    HeadStepAsWrittenAgrees(distance, DrawPaths(distance, m, entries).0, body.keypoints, width, height);
  }

  /** `drawBody` as written removes no mesh. */
  lemma BodyStepAsWrittenKeeps(distance: Distance, m: Registry, body: BodyResult, width: Dim, height: Dim, k: string)
    requires k in m
    ensures k in BodyStepAsWritten(distance, m, body, width, height).0
  {
    var entries := BodyEntries(body.annotations, width, height);
    DrawPathsAsWrittenKeeps(distance, m, entries, k);
    HeadStepAsWrittenKeeps(distance, DrawPathsAsWritten(distance, m, entries).0, body.keypoints, width, height, k);
  }

  /** `drawHead` as written removes no mesh. */
  lemma HeadStepAsWrittenKeeps(distance: Distance, m: Registry, kpts: seq<BodyKeypoint>, width: Dim, height: Dim, k: string)
    requires k in m
    ensures k in HeadStepAsWritten(distance, m, kpts, width, height).0
  {
    var withHead := if "head" in m then m else m["head" := NewHead()];
    var le, re := FindKeypoint(kpts, "leftEye"), FindKeypoint(kpts, "rightEye");
    var ls, rs := FindKeypoint(kpts, "leftShoulder"), FindKeypoint(kpts, "rightShoulder");
    if !(le.None? || re.None? || ls.None? || rs.None?) {
      var g := HeadGeometry(distance, le.value.position, re.value.position, ls.value.position, rs.value.position);
      PlaceHeadAsWrittenKeeps(distance, withHead, g, width, height, k);
    }
  }

  lemma PlaceHeadAsWrittenKeeps(distance: Distance, m: Registry, g: Head, width: Dim, height: Dim, k: string)
    requires "head" in m && k in m
    ensures k in PlaceHeadAsWritten(distance, m, g, width, height).0
  {
    var neck := NeckPath(g, width, height);
    assert m.Keys <= PathStepAsWritten(m, "neck", neck, Diameter(distance, neck)).0.Keys;
  }

  // ---------------------------------------------------------------------
  // Hand parts: `drawHand`.

  /** `keypoints.map((kpt) => [kpt[0] / w, kpt[1] / h, kpt[2] || 0])`. */
  function HandRaw(kpts: seq<Point>, width: Dim, height: Dim): (r: seq<Point>)
    ensures |r| == |kpts|
    ensures forall i :: 0 <= i < |kpts| ==>
      r[i] == [Coord(kpts[i], 0) / width, Coord(kpts[i], 1) / height, Coord(kpts[i], 2)]
  {
    seq(|kpts|, i requires 0 <= i < |kpts| => [Coord(kpts[i], 0) / width, Coord(kpts[i], 1) / height, Coord(kpts[i], 2)])
  }

  /** The on-canvas points of every annotation mapped, in order. */
  function HandEntries(ann: seq<(string, seq<Point>)>, width: Dim, height: Dim): (r: seq<Entry>)
    ensures |r| == |ann|
    ensures forall j :: 0 <= j < |ann| ==> r[j] == (ann[j].0, VisiblePath(ann[j].1, width, height))
  {
    seq(|ann|, j requires 0 <= j < |ann| => (ann[j].0, VisiblePath(ann[j].1, width, height)))
  }

  /** The hand's `drawPath` calls: a path of fewer than two points is
      skipped, so no call can throw on an empty path. */
  function HandPaths(distance: Distance, m: Registry, entries: seq<Entry>): Registry
  {
    if entries == [] then m
    else
      var before := HandPaths(distance, m, entries[..|entries| - 1]);
      var e := entries[|entries| - 1];
      if |e.1| > 1 then PathStep(before, e.0, e.1, Diameter(distance, e.1)) else before
  }

  /** Some entry of two or more points owns key k. */
  predicate DrawnOwnedBy(entries: seq<Entry>, k: string)
  {
    exists j :: 0 <= j < |entries| && |entries[j].1| > 1 && Owns(entries[j].0, |entries[j].1|, k)
  }

  lemma DrawnOwnedBySnoc(entries: seq<Entry>, k: string)
    requires entries != []
    ensures var e := entries[|entries| - 1];
      DrawnOwnedBy(entries, k) <==> DrawnOwnedBy(entries[..|entries| - 1], k) || (|e.1| > 1 && Owns(e.0, |e.1|, k))
  {
    var init := entries[..|entries| - 1];
    assert forall j :: 0 <= j < |init| ==> init[j] == entries[j];
    if DrawnOwnedBy(entries, k) && !DrawnOwnedBy(init, k) {
      var j :| 0 <= j < |entries| && |entries[j].1| > 1 && Owns(entries[j].0, |entries[j].1|, k);
      assert j == |entries| - 1;
    }
  }

  /** The parts drawn own the new keys, and only parts with two or more
      points are drawn. */
  lemma {:induction false} HandPathsKeys(distance: Distance, m: Registry, entries: seq<Entry>, k: string)
    ensures k in HandPaths(distance, m, entries) <==> k in m || DrawnOwnedBy(entries, k)
  {
    if entries != [] {
      var init := entries[..|entries| - 1];
      var e := entries[|entries| - 1];
      HandPathsKeys(distance, m, init, k);
      if |e.1| > 1 {
        PathStepKeys(HandPaths(distance, m, init), e.0, e.1, Diameter(distance, e.1), k);
      }
      DrawnOwnedBySnoc(entries, k);
    }
  }

  /** Keys no drawn part owns keep their meshes. */
  lemma {:induction false} HandPathsOthers(distance: Distance, m: Registry, entries: seq<Entry>, k: string)
    requires !DrawnOwnedBy(entries, k)
    ensures k in m ==> k in HandPaths(distance, m, entries) && HandPaths(distance, m, entries)[k] == m[k]
  {
    if entries != [] {
      var init := entries[..|entries| - 1];
      var e := entries[|entries| - 1];
      DrawnOwnedBySnoc(entries, k);
      HandPathsOthers(distance, m, init, k);
      if |e.1| > 1 && k in m {
        PathStepOthers(HandPaths(distance, m, init), e.0, e.1, Diameter(distance, e.1), k);
      }
    }
  }

  /** The hand's `drawPath` calls as written: a part of two or more points
      whose path has grown since it was first seen throws, and the rest of
      the hand is not drawn. */
  function HandPathsAsWritten(distance: Distance, m: Registry, entries: seq<Entry>): (Registry, bool)
  {
    if entries == [] then (m, true)
    else
      var before := HandPathsAsWritten(distance, m, entries[..|entries| - 1]);
      var e := entries[|entries| - 1];
      if !before.1 || |e.1| <= 1 then before
      else PathStepAsWritten(before.0, e.0, e.1, Diameter(distance, e.1))
  }

  /** A hand that completes as written is the hand of the corrected loop. */
  lemma {:induction false} HandPathsAsWrittenAgrees(distance: Distance, m: Registry, entries: seq<Entry>)
    requires HandPathsAsWritten(distance, m, entries).1
    ensures HandPathsAsWritten(distance, m, entries).0 == HandPaths(distance, m, entries)
  {
    if entries != [] {
      HandPathsAsWrittenAgrees(distance, m, entries[..|entries| - 1]);
    }
  }

  lemma {:induction false} HandPathsAsWrittenKeeps(distance: Distance, m: Registry, entries: seq<Entry>, k: string)
    requires k in m
    ensures k in HandPathsAsWritten(distance, m, entries).0
  {
    if entries != [] {
      HandPathsAsWrittenKeeps(distance, m, entries[..|entries| - 1], k);
    }
  }

  /** Keys no drawn part owns are left alone as written too. */
  lemma {:induction false} HandPathsAsWrittenOthers(distance: Distance, m: Registry, entries: seq<Entry>, k: string)
    requires !DrawnOwnedBy(entries, k)
    ensures k in HandPathsAsWritten(distance, m, entries).0 <==> k in m
    ensures k in m ==> HandPathsAsWritten(distance, m, entries).0[k] == m[k]
  {
    if entries != [] {
      var init := entries[..|entries| - 1];
      var e := entries[|entries| - 1];
      DrawnOwnedBySnoc(entries, k);
      HandPathsAsWrittenOthers(distance, m, init, k);
      var before := HandPathsAsWritten(distance, m, init);
      if before.1 && |e.1| > 1 {
        PathStepAsWrittenOthers(before.0, e.0, e.1, Diameter(distance, e.1), k);
      }
    }
  }

  /** A hand part already in the registry, drawn with two or more points
      that reach joint i, which neither the registry nor an earlier drawn
      part has, makes the hand throw as written. */
  lemma {:induction false} HandPathsAsWrittenGrown(distance: Distance, m: Registry, entries: seq<Entry>, j: nat, i: nat)
    requires j < |entries| && entries[j].0 in m && 1 < |entries[j].1| && i < |entries[j].1|
    requires JointKey(entries[j].0, i) !in m && !DrawnOwnedBy(entries[..j], JointKey(entries[j].0, i))
    ensures !HandPathsAsWritten(distance, m, entries).1
  {
    var init := entries[..|entries| - 1];
    if j < |entries| - 1 {
      assert init[j] == entries[j] && init[..j] == entries[..j];
      HandPathsAsWrittenGrown(distance, m, init, j, i);
    } else {
      assert init == entries[..j];
      var before := HandPathsAsWritten(distance, m, init);
      var e := entries[j];
      if before.1 {
        HandPathsAsWrittenKeeps(distance, m, init, e.0);
        HandPathsAsWrittenOthers(distance, m, init, JointKey(e.0, i));
        GrownPathThrows(before.0, e.0, e.1, Diameter(distance, e.1), i);
      }
    }
  }
}

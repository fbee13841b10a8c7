/**
 * src/avatar.ts: the rigged avatar. Loading its skeleton strips the
 * `mixamorig:` prefix from every bone name and returns the bones to their
 * rest pose. A frame then looks up, for each (from keypoint, to keypoint,
 * bone) triple of the coordinate table, the two keypoints of the first
 * body and the named bone. It skips every incomplete triple and turns the
 * bone of every complete one by the angle between its two points. The
 * camera and light presets are chosen by the model file's name.
 *
 * Bones are values held in a sequence that the avatar's methods reassign.
 * `Math.atan2` is a function-valued parameter of the avatar.
 */
module Avatar {
  import opened Wrappers
  import opened Seqs
  import opened Strings
  import opened Human
  import opened Geometry
  import Coords

  /** The model file the avatar loads. */
  const ModelUrl: string := "../assets/ybot.babylon"

  /** The prefix the model's exporter puts in front of every bone name. */
  const RigPrefix: string := "mixamorig:"

  /** Euler angles in the order `setYawPitchRoll` takes them. */
  datatype Rotation = Rotation(yaw: real, pitch: real, roll: real)

  /** A bone: its name, and its rotation, where None is the rest pose. */
  datatype Bone = Bone(name: string, rotation: Option<Rotation>)

  datatype Skeleton = Skeleton(name: string, bones: seq<Bone>)

  /** The angle between two points, given `Math.atan2`. Depth differences
      are divided by 256 before they enter `atan2`. */
  function Angle(atan2: (real, real) -> real, pt0: Point, pt1: Point): (r: Rotation)
    ensures r.pitch == atan2(Coord(pt0, 0) - Coord(pt1, 0), Coord(pt0, 1) - Coord(pt1, 1))
    ensures r.roll == atan2(Coord(pt0, 1) - Coord(pt1, 1), (Coord(pt0, 2) - Coord(pt1, 2)) / 256.0)
    ensures r.yaw == atan2((Coord(pt0, 2) - Coord(pt1, 2)) / 256.0, Coord(pt0, 0) - Coord(pt1, 0))
  {
    var dx := Coord(pt0, 0) - Coord(pt1, 0);
    var dy := Coord(pt0, 1) - Coord(pt1, 1);
    var dz := (Coord(pt0, 2) - Coord(pt1, 2)) / 256.0;
    Rotation(atan2(dz, dx), atan2(dx, dy), atan2(dy, dz))
  }

  /** `getPart`: the raw position of the first keypoint of that part, or
      none when no keypoint has that part. */
  function GetPart(body: BodyResult, name: string): (r: Option<Point>)
    ensures r.None? <==> forall i :: 0 <= i < |body.keypoints| ==> body.keypoints[i].part != name
    ensures r.Some? ==> exists i :: 0 <= i < |body.keypoints| && body.keypoints[i].part == name && body.keypoints[i].positionRaw == r.value
                                   && forall j :: 0 <= j < i ==> body.keypoints[j].part != name
  {
    match FindKeypoint(body.keypoints, name)
    case Some(k) => Some(k.positionRaw)
    case None => None
  }

  /** Position of the first bone with that name. */
  function BoneIndex(bones: seq<Bone>, name: string): (r: Option<nat>)
    ensures r.Some? ==> r.value < |bones| && bones[r.value].name == name
    ensures r.Some? ==> forall j :: 0 <= j < r.value ==> bones[j].name != name
    ensures r.None? <==> forall j :: 0 <= j < |bones| ==> bones[j].name != name
  {
    FindIndex(bones, (b: Bone) => b.name == name)
  }

  /** `getBone`: none without a scene or a skeleton, else the first bone
      of that name. */
  function GetBone(hasScene: bool, skeleton: Option<Skeleton>, name: string): (r: Option<Bone>)
    ensures r.Some? <==> hasScene && skeleton.Some? && exists i :: 0 <= i < |skeleton.value.bones| && skeleton.value.bones[i].name == name
    ensures r.Some? ==> exists i :: 0 <= i < |skeleton.value.bones| && skeleton.value.bones[i] == r.value
                                   && r.value.name == name
                                   && forall j :: 0 <= j < i ==> skeleton.value.bones[j].name != name
  {
    if !hasScene || skeleton.None? then None
    else match BoneIndex(skeleton.value.bones, name)
      case Some(i) => Some(skeleton.value.bones[i])
      case None => None
  }

  /** Bones with the same names in the same order. */
  predicate SameNames(a: seq<Bone>, b: seq<Bone>)
  {
    |a| == |b| && forall i :: 0 <= i < |a| ==> a[i].name == b[i].name
  }

  /** Every entry of the table is a (from, to, bone) triple. */
  predicate Triples(pairs: seq<seq<string>>)
  {
    forall k :: 0 <= k < |pairs| ==> |pairs[k]| == 3
  }

  /** What one entry of the table asks for: the bone's name, and the angle
      when both keypoints are found. */
  datatype Aim = Aim(bone: string, angle: Option<Rotation>)

  function AimOf(atan2: (real, real) -> real, body: BodyResult, pair: seq<string>): (r: Aim)
    requires |pair| == 3
    ensures r.bone == pair[2]
    ensures r.angle.Some? <==> GetPart(body, pair[0]).Some? && GetPart(body, pair[1]).Some?
    ensures r.angle.Some? ==> r.angle.value == Angle(atan2, GetPart(body, pair[0]).value, GetPart(body, pair[1]).value)
  {
    var pt0 := GetPart(body, pair[0]);
    var pt1 := GetPart(body, pair[1]);
    if pt0.None? || pt1.None? then Aim(pair[2], None)
    else Aim(pair[2], Some(Angle(atan2, pt0.value, pt1.value)))
  }

  /** The aims of the whole table, entry by entry. */
  function Aims(atan2: (real, real) -> real, body: BodyResult, pairs: seq<seq<string>>): (r: seq<Aim>)
    requires Triples(pairs)
    ensures |r| == |pairs| && forall k :: 0 <= k < |pairs| ==> r[k] == AimOf(atan2, body, pairs[k])
  {
    seq(|pairs|, k requires 0 <= k < |pairs| => AimOf(atan2, body, pairs[k]))
  }

  /** No two aims name the same bone. */
  predicate DistinctBones(aims: seq<Aim>)
  {
    forall i, j :: 0 <= i < j < |aims| ==> aims[i].bone != aims[j].bone
  }

  /** The bone an aim turns: none when a keypoint or the bone is missing,
      else the first bone of that name. */
  function Target(bones: seq<Bone>, aim: Aim): (r: Option<nat>)
    ensures r.Some? <==> aim.angle.Some? && BoneIndex(bones, aim.bone).Some?
    ensures r.Some? ==> r.value < |bones| && bones[r.value].name == aim.bone
  {
    if aim.angle.None? then None else BoneIndex(bones, aim.bone)
  }

  /** The bone an aim turns is the one `getBone` returns for the loaded
      skeleton, and an aim turns one exactly when `getBone` finds it and
      both keypoints are found. */
  lemma TargetIsGetBone(sk: Skeleton, aim: Aim)
    ensures Target(sk.bones, aim).Some? <==> aim.angle.Some? && GetBone(true, Some(sk), aim.bone).Some?
    ensures Target(sk.bones, aim).Some? ==> GetBone(true, Some(sk), aim.bone) == Some(sk.bones[Target(sk.bones, aim).value])
  {
  }

  /** The bones after one entry of the table. */
  function Turn(bones: seq<Bone>, aim: Aim): seq<Bone>
  {
    match Target(bones, aim)
    case None => bones
    case Some(b) => bones[b := bones[b].(rotation := aim.angle)]
  }

  /** The bones after the entries of the table, taken in order. Names and
      positions of the bones never change. */
  function Posed(bones: seq<Bone>, aims: seq<Aim>): (r: seq<Bone>)
    ensures SameNames(r, bones)
    decreases |aims|
  {
    if |aims| == 0 then bones
    else Turn(Posed(bones, aims[..|aims| - 1]), aims[|aims| - 1])
  }

  /** A lookup by name sees only the names. */
  lemma SameNamesSameIndex(a: seq<Bone>, b: seq<Bone>, name: string)
    requires SameNames(a, b)
    ensures BoneIndex(a, name) == BoneIndex(b, name)
  {
    match BoneIndex(a, name)
    case Some(i) =>
      FindIndexIsFirst(b, (x: Bone) => x.name == name, i);
    case None =>
      assert forall j :: 0 <= j < |b| ==> b[j].name != name by {
        forall j | 0 <= j < |b| ensures b[j].name != name {
          assert a[j].name == b[j].name;
        }
      }
  }

  /** An incomplete entry changes nothing, and the entries after it are
      still taken. */
  lemma IncompletePairSkipped(bones: seq<Bone>, aims: seq<Aim>, k: nat)
    requires k < |aims| && Target(Posed(bones, aims[..k]), aims[k]).None?
    ensures Posed(bones, aims[..k + 1]) == Posed(bones, aims[..k])
  {
    assert aims[..k + 1][..k] == aims[..k];
  }

  /** One entry changes at most the bone it aims at. */
  lemma TurnAt(bones: seq<Bone>, aim: Aim, b: nat)
    requires b < |bones|
    ensures Turn(bones, aim)[b] == if Target(bones, aim) == Some(b) then bones[b].(rotation := aim.angle) else bones[b]
  {
  }

  /** A complete entry of a table whose bones are distinct sets its bone:
      the pose after the whole table holds that entry's angle. */
  lemma {:induction false} PosedSetsBone(bones: seq<Bone>, aims: seq<Aim>, k: nat, b: nat)
    requires DistinctBones(aims) && k < |aims| && Target(bones, aims[k]) == Some(b)
    ensures b < |bones| && Posed(bones, aims)[b].rotation == aims[k].angle
    decreases |aims|
  {
    var last := |aims| - 1;
    var init := aims[..last];
    var before := Posed(bones, init);
    SameNamesSameIndex(before, bones, aims[last].bone);
    TurnAt(before, aims[last], b);
    if k < last {
      assert init[k] == aims[k];
      PosedSetsBone(bones, init, k, b);
    }
  }

  /** A bone that no complete entry aims at keeps its rotation. */
  lemma {:induction false} PosedLeavesBone(bones: seq<Bone>, aims: seq<Aim>, b: nat)
    requires b < |bones|
    requires forall k :: 0 <= k < |aims| ==> Target(bones, aims[k]) != Some(b)
    ensures Posed(bones, aims)[b] == bones[b]
    decreases |aims|
  {
    if |aims| > 0 {
      var last := |aims| - 1;
      var init := aims[..last];
      var before := Posed(bones, init);
      forall k | 0 <= k < |init| ensures Target(bones, init[k]) != Some(b) {
        assert init[k] == aims[k];
      }
      PosedLeavesBone(bones, init, b);
      SameNamesSameIndex(before, bones, aims[last].bone);
      TurnAt(before, aims[last], b);
    }
  }

  /** The table of the source is made of triples, and no bone is named
      twice in it. */
  lemma PairsAimDistinct(atan2: (real, real) -> real, body: BodyResult)
    ensures Triples(Coords.Pairs) && DistinctBones(Aims(atan2, body, Coords.Pairs))
  {
  }

  /** The loop of `draw` over the table, on the bones of the skeleton. */
  method TurnBones(atan2: (real, real) -> real, bones: seq<Bone>, body: BodyResult, pairs: seq<seq<string>>) returns (r: seq<Bone>)
    requires Triples(pairs)
    ensures r == Posed(bones, Aims(atan2, body, pairs))
  {
    ghost var aims := Aims(atan2, body, pairs);
    r := bones;
    for i := 0 to |pairs|
      invariant r == Posed(bones, aims[..i])
    {
      var pair := pairs[i];
      var pt0 := GetPart(body, pair[0]);
      var pt1 := GetPart(body, pair[1]);
      var bone := BoneIndex(r, pair[2]);
      assert aims[..i + 1][..i] == aims[..i];
      assert aims[..i + 1][i] == AimOf(atan2, body, pair);
      if pt0.None? || pt1.None? || bone.None? {
        continue;
      }
      var a := Angle(atan2, pt0.value, pt1.value);
      r := r[bone.value := r[bone.value].(rotation := Some(a))];
    }
    assert aims[..|pairs|] == aims;
  }

  /** A bone name with the first `mixamorig:` removed. */
  function Unrigged(name: string): string
  {
    ReplaceFirst(name, RigPrefix, "")
  }

  /** The bones of a loaded skeleton, renamed and back at rest. */
  function Loaded(bones: seq<Bone>): (r: seq<Bone>)
    ensures |r| == |bones|
  {
    seq(|bones|, i requires 0 <= i < |bones| => Bone(Unrigged(bones[i].name), None))
  }

  /** A name that starts with the prefix loses it; a name that does not
      hold the prefix anywhere is kept. */
  lemma UnriggedStripsPrefix(rest: string, other: string)
    requires !Includes(other, RigPrefix)
    ensures Unrigged(RigPrefix + rest) == rest
    ensures Unrigged(other) == other
  {
    ReplaceLeadingPattern(RigPrefix, rest, "");
    assert "" + rest == rest;
  }

  /** A prefixed bone is found after loading under its plain name, as
      long as no earlier bone carries that plain name once renamed. */
  lemma LoadedFindsBone(bones: seq<Bone>, name: string, i: nat)
    requires i < |bones| && bones[i].name == RigPrefix + name
    requires forall j :: 0 <= j < i ==> Unrigged(bones[j].name) != name
    ensures BoneIndex(Loaded(bones), name) == Some(i)
  {
    UnriggedStripsPrefix(name, "");
    FindIndexIsFirst(Loaded(bones), (b: Bone) => b.name == name, i);
  }

  /** The renaming loop of the loader's callback. */
  method LoadBones(bones: seq<Bone>) returns (r: seq<Bone>)
    ensures r == Loaded(bones)
  {
    r := [];
    for i := 0 to |bones|
      invariant r == Loaded(bones)[..i]
    {
      r := r + [Bone(ReplaceFirst(bones[i].name, RigPrefix, ""), None)];
    }
  }

  /** Camera position, camera target and light direction. */
  datatype Preset = Preset(position: Vec3, target: Vec3, light: Vec3)

  const SkullPreset := Preset(Vec3(0.0, 10.0, -50.0), Vec3(0.0, 5.0, 0.0), Vec3(-1.0, -1.0, 0.0))
  const YbotPreset := Preset(Vec3(-1.0, 1.0, 3.0), Vec3(0.0, 1.0, 0.0), Vec3(-1.0, -1.0, -1.0))

  /** The file name's preset; the `ybot` check comes second and wins. */
  function PresetFor(url: string): (r: Option<Preset>)
    ensures Includes(url, "ybot") ==> r == Some(YbotPreset)
    ensures !Includes(url, "ybot") && Includes(url, "skull") ==> r == Some(SkullPreset)
    ensures r.None? <==> !Includes(url, "ybot") && !Includes(url, "skull")
  {
    if Includes(url, "ybot") then Some(YbotPreset)
    else if Includes(url, "skull") then Some(SkullPreset)
    else None
  }

  /** The model file names the `ybot` rig and not the skull. */
  lemma ModelUrlSelectsYbot()
    ensures Includes(ModelUrl, "ybot") && !Includes(ModelUrl, "skull")
    ensures PresetFor(ModelUrl) == Some(YbotPreset)
  {
    assert OccursAt(ModelUrl, "ybot", 10);
    assert forall i :: 0 <= i < |ModelUrl| ==> ModelUrl[i] != 'k';
    forall j | 0 <= j <= |ModelUrl| ensures !OccursAt(ModelUrl, "skull", j) {
      if j + 5 <= |ModelUrl| {
        assert ModelUrl[j..j + 5][1] == ModelUrl[j + 1];
      }
    }
  }

  /** The scene of the avatar (`t`), with its skeleton, camera and light. */
  class Avatar {
    var hasScene: bool
    var skeleton: Option<Skeleton>
    var cameraPosition: Vec3
    var cameraTarget: Vec3
    var lightDirection: Vec3
    const atan2: (real, real) -> real

    /** Camera, target and light together. */
    function View(): Preset
      reads this
    {
      Preset(cameraPosition, cameraTarget, lightDirection)
    }

    constructor (atan2: (real, real) -> real)
      ensures this.atan2 == atan2
      ensures !hasScene && skeleton.None?
      ensures View() == Preset(Origin, Origin, Origin)
    {
      this.atan2 := atan2;
      hasScene, skeleton := false, None;
      cameraPosition, cameraTarget, lightDirection := Origin, Origin, Origin;
    }

    /** `position`: the two presets are checked in turn; a file name that
        matches neither keeps the view. It reads the camera and light of the
        scene, so the scene must exist. */
    method Position()
      requires hasScene
      modifies this`cameraPosition, this`cameraTarget, this`lightDirection
      ensures View() == match PresetFor(ModelUrl) case Some(p) => p case None => old(View())
      ensures View() == YbotPreset
    {
      if Includes(ModelUrl, "skull") {
        cameraPosition := SkullPreset.position;
        cameraTarget := SkullPreset.target;
        lightDirection := SkullPreset.light;
      }
      if Includes(ModelUrl, "ybot") {
        cameraPosition := YbotPreset.position;
        cameraTarget := YbotPreset.target;
        lightDirection := YbotPreset.light;
      }
      ModelUrlSelectsYbot();
    }

    /** `init`: the scene is made once, then the loader's callback takes
        the first loaded skeleton, if any, renames its bones and rests
        them, and applies the preset. */
    method Init(skeletons: seq<Skeleton>)
      modifies this
      ensures hasScene
      ensures |skeletons| == 0 ==> skeleton == old(skeleton)
      ensures |skeletons| > 0 ==> skeleton == Some(Skeleton("ybot", Loaded(skeletons[0].bones)))
      ensures View() == YbotPreset
    {
      if !hasScene {
        hasScene := true;
      }
      if |skeletons| > 0 {
        var bones := LoadBones(skeletons[0].bones);
        skeleton := Some(Skeleton("ybot", bones));
      }
      Position();
    }

    /** `draw`: nothing without a scene or a first body; otherwise every
        complete entry of the table turns its bone. Without a skeleton no
        bone is found and every entry is skipped. */
    method Draw(result: Result)
      modifies this`skeleton
      ensures !hasScene || |result.body| == 0 || old(skeleton).None? ==> skeleton == old(skeleton)
      ensures hasScene && |result.body| > 0 && old(skeleton).Some? ==>
        skeleton == Some(old(skeleton).value.(bones := Posed(old(skeleton).value.bones, Aims(atan2, result.body[0], Coords.Pairs))))
    {
      if !hasScene {
        return;
      }
      if |result.body| > 0 && skeleton.Some? {
        PairsAimDistinct(atan2, result.body[0]);
        var bones := TurnBones(atan2, skeleton.value.bones, result.body[0], Coords.Pairs);
        skeleton := Some(skeleton.value.(bones := bones));
      }
    }
  }

  /** After a draw every entry of the table whose two keypoints and bone
      are found has turned that bone by the angle from the first keypoint
      to the second, and a bone no complete entry names has not moved. */
  lemma DrawTurnsEachBoneOnce(atan2: (real, real) -> real, bones: seq<Bone>, body: BodyResult, b: nat)
    requires b < |bones|
    ensures Triples(Coords.Pairs)
    ensures forall k :: 0 <= k < |Coords.Pairs| && GetPart(body, Coords.Pairs[k][0]).Some? && GetPart(body, Coords.Pairs[k][1]).Some?
                        && BoneIndex(bones, Coords.Pairs[k][2]) == Some(b)
              ==> Posed(bones, Aims(atan2, body, Coords.Pairs))[b].rotation
                  == Some(Angle(atan2, GetPart(body, Coords.Pairs[k][0]).value, GetPart(body, Coords.Pairs[k][1]).value))
    ensures (forall k :: 0 <= k < |Coords.Pairs| ==> Target(bones, AimOf(atan2, body, Coords.Pairs[k])) != Some(b))
              ==> Posed(bones, Aims(atan2, body, Coords.Pairs))[b] == bones[b]
  {
    PairsAimDistinct(atan2, body);
    var aims := Aims(atan2, body, Coords.Pairs);
    forall k | 0 <= k < |Coords.Pairs| && GetPart(body, Coords.Pairs[k][0]).Some? && GetPart(body, Coords.Pairs[k][1]).Some?
               && BoneIndex(bones, Coords.Pairs[k][2]) == Some(b)
      ensures Posed(bones, aims)[b].rotation == Some(Angle(atan2, GetPart(body, Coords.Pairs[k][0]).value, GetPart(body, Coords.Pairs[k][1]).value))
    {
      PosedSetsBone(bones, aims, k, b);
    }
    if forall k :: 0 <= k < |Coords.Pairs| ==> Target(bones, AimOf(atan2, body, Coords.Pairs[k])) != Some(b) {
      PosedLeavesBone(bones, aims, b);
    }
  }
}

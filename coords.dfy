/** The constant skeleton tables of src/coords.ts: the BlazePose keypoint
    names, the named keypoint chains, the bone names of the rigged avatar and
    the keypoint pairs that drive bones. */
module Coords {
  import opened Wrappers
  import opened Seqs

  /** `kpt`: keypoints in BlazePose order; the position of a name is the
      landmark number the detector reports for it. */
  const Kpt: seq<string> := [
    "Nose", "LeftEyeInside", "LeftEye", "LeftEyeOutside", "RightEyeInside", "RightEye",
    "RightEyeOutside", "LeftEar", "RightEar", "LeftMouth", "RightMouth", "LeftShoulder",
    "RightShoulder", "LeftElbow", "RightElbow", "LeftWrist", "RightWrist", "LeftPinky",
    "RightPinky", "LeftIndex", "RightIndex", "LeftThumb", "RightThumb", "LeftHip",
    "RightHip", "LeftKnee", "RightKnee", "LeftAnkle", "RightAnkle", "LeftHeel",
    "RightHeel", "LeftFoot", "RightFoot", "bodyCenter", "bodyTop", "LeftPalm",
    "LeftHand", "RightPalm", "RightHand"]

  /** `connected`: chains of keypoint names, in the record's key order. */
  const Connected: seq<(string, seq<string>)> := [
    ("LeftLeg", ["LeftHip", "LeftKnee", "LeftAnkle", "LeftHeel", "LeftFoot"]),
    ("RightLeg", ["RightHip", "RightKnee", "RightAnkle", "RightHeel", "RightFoot"]),
    ("torso", ["LeftShoulder", "RightShoulder", "RightHip", "LeftHip", "LeftShoulder", "RightShoulder"]),
    ("LeftArm", ["LeftShoulder", "LeftElbow", "LeftWrist", "LeftPalm"]),
    ("RightArm", ["RightShoulder", "RightElbow", "RightWrist", "RightPalm"]),
    ("LeftEye", ["LeftEyeInside", "LeftEye", "LeftEyeOutside"]),
    ("RightEye", ["RightEyeInside", "RightEye", "RightEyeOutside"]),
    ("mouth", ["LeftMouth", "RightMouth"])]

  /** `bones`: bone names of the avatar skeleton once the loader has
      stripped their `mixamorig:` prefix, in the array's order. The array is
      written here as the concatenation of its runs by body part. */
  const Bones: seq<string> := SpineBones + LeftArmBones + RightArmBones + RightLegBones + LeftLegBones

  /** hips, spine, neck, head and eyes */
  const SpineBones: seq<string> := [
    "Hips", "Spine", "Spine1", "Spine2", "Neck",
    "Head", "HeadTop_End", "LeftEye", "RightEye"]

  /** left arm, hand and fingers */
  const LeftArmBones: seq<string> := [
    "LeftShoulder", "LeftArm", "LeftForeArm", "LeftHand", "LeftHandMiddle1",
    "LeftHandMiddle2", "LeftHandMiddle3", "LeftHandMiddle4", "LeftHandThumb1", "LeftHandThumb2",
    "LeftHandThumb3", "LeftHandThumb4", "LeftHandIndex1", "LeftHandIndex2", "LeftHandIndex3",
    "LeftHandIndex4", "LeftHandRing1", "LeftHandRing2", "LeftHandRing3", "LeftHandRing4",
    "LeftHandPinky1", "LeftHandPinky2", "LeftHandPinky3", "LeftHandPinky4"]

  /** right arm, hand and fingers */
  const RightArmBones: seq<string> := [
    "RightShoulder", "RightArm", "RightForeArm", "RightHand", "RightHandMiddle1",
    "RightHandMiddle2", "RightHandMiddle3", "RightHandMiddle4", "RightHandThumb1", "RightHandThumb2",
    "RightHandThumb3", "RightHandThumb4", "RightHandIndex1", "RightHandIndex2", "RightHandIndex3",
    "RightHandIndex4", "RightHandRing1", "RightHandRing2", "RightHandRing3", "RightHandRing4",
    "RightHandPinky1", "RightHandPinky2", "RightHandPinky3", "RightHandPinky4"]

  /** right leg and foot */
  const RightLegBones: seq<string> := [
    "RightUpLeg", "RightLeg", "RightFoot", "RightToeBase", "RightToe_End"]

  /** left leg and foot */
  const LeftLegBones: seq<string> := [
    "LeftUpLeg", "LeftLeg", "LeftFoot", "LeftToeBase", "LeftToe_End"]

  /** `pairs`: [from keypoint, to keypoint, bone] triples. */
  const Pairs: seq<seq<string>> := [
    ["leftShoulder", "leftElbow", "LeftShoulder"],
    ["leftElbow", "leftWrist", "LeftForeArm"]]

  /** The chain stored under `name`, if any. */
  function Chain(name: string): (r: seq<string>)
    ensures (exists k :: 0 <= k < |Connected| && Connected[k].0 == name) ==> exists k :: 0 <= k < |Connected| && Connected[k] == (name, r)
    ensures (forall k :: 0 <= k < |Connected| ==> Connected[k].0 != name) ==> r == []
  {
    match FindIndex(Connected, (e: (string, seq<string>)) => e.0 == name)
    case Some(k) => Connected[k].1
    case None => []
  }



  lemma KptRows0() ensures RowsDistinct(Kpt, 0, 1) {}
  lemma KptRows1() ensures RowsDistinct(Kpt, 1, 2) {}
  lemma KptRows2() ensures RowsDistinct(Kpt, 2, 3) {}
  lemma KptRows3() ensures RowsDistinct(Kpt, 3, 4) {}
  lemma KptRows4() ensures RowsDistinct(Kpt, 4, 6) {}
  lemma KptRows6() ensures RowsDistinct(Kpt, 6, 9) {}
  lemma KptRows9() ensures RowsDistinct(Kpt, 9, 13) {}
  lemma KptRows13() ensures RowsDistinct(Kpt, 13, 20) {}
  lemma KptRows20() ensures RowsDistinct(Kpt, 20, 39) {}

  /** The 39 keypoint names are pairwise distinct. */
  lemma KptDistinct()
    ensures |Kpt| == 39 && Distinct(Kpt)
  {
    KptRows0();
    KptRows1();
    KptRows2();
    KptRows3();
    KptRows4();
    KptRows6();
    KptRows9();
    KptRows13();
    KptRows20();
    RowsJoin(Kpt, 0, 1, 2);
    RowsJoin(Kpt, 0, 2, 3);
    RowsJoin(Kpt, 0, 3, 4);
    RowsJoin(Kpt, 0, 4, 6);
    RowsJoin(Kpt, 0, 6, 9);
    RowsJoin(Kpt, 0, 9, 13);
    RowsJoin(Kpt, 0, 13, 20);
    RowsJoin(Kpt, 0, 20, 39);
  }

  /** Looking a name up in `kpt` yields its landmark number: the position of
      each name is the number its comment gives it. */
  lemma KptNumbering()
    ensures |Kpt| == 39
    ensures forall i :: 0 <= i < |Kpt| ==> FindIndex(Kpt, (x: string) => x == Kpt[i]) == Some(i)
  {
    KptDistinct();
    DistinctFindsOwnIndex(Kpt);
  }

  lemma SpineBonesDistinct() ensures Distinct(SpineBones) {}
  lemma LeftArmRows0() ensures RowsDistinct(LeftArmBones, 0, 4) {}
  lemma LeftArmRows4() ensures RowsDistinct(LeftArmBones, 4, 8) {}
  lemma LeftArmRows8() ensures RowsDistinct(LeftArmBones, 8, 12) {}
  lemma LeftArmRows12() ensures RowsDistinct(LeftArmBones, 12, 24) {}
  lemma LeftArmBonesDistinct() ensures Distinct(LeftArmBones) {
    LeftArmRows0();
    LeftArmRows4();
    LeftArmRows8();
    LeftArmRows12();
    RowsJoin(LeftArmBones, 0, 4, 8);
    RowsJoin(LeftArmBones, 0, 8, 12);
    RowsJoin(LeftArmBones, 0, 12, 24);
  }
  lemma RightArmRows0() ensures RowsDistinct(RightArmBones, 0, 4) {}
  lemma RightArmRows4() ensures RowsDistinct(RightArmBones, 4, 8) {}
  lemma RightArmRows8() ensures RowsDistinct(RightArmBones, 8, 12) {}
  lemma RightArmRows12() ensures RowsDistinct(RightArmBones, 12, 24) {}
  lemma RightArmBonesDistinct() ensures Distinct(RightArmBones) {
    RightArmRows0();
    RightArmRows4();
    RightArmRows8();
    RightArmRows12();
    RowsJoin(RightArmBones, 0, 4, 8);
    RowsJoin(RightArmBones, 0, 8, 12);
    RowsJoin(RightArmBones, 0, 12, 24);
  }
  lemma LegBonesDistinct() ensures Distinct(RightLegBones) && Distinct(LeftLegBones) {}
  lemma SpineArmBonesApart() ensures Disjoint(SpineBones, LeftArmBones) && Disjoint(SpineBones, RightArmBones) {}
  lemma SpineLegBonesApart() ensures Disjoint(SpineBones, RightLegBones) && Disjoint(SpineBones, LeftLegBones) {}
  lemma ArmBonesApart() ensures Disjoint(LeftArmBones, RightArmBones) {}
  lemma LeftArmBonesApart() ensures Disjoint(LeftArmBones, RightLegBones) && Disjoint(LeftArmBones, LeftLegBones) {}
  lemma RightArmBonesApart() ensures Disjoint(RightArmBones, RightLegBones) && Disjoint(RightArmBones, LeftLegBones) {}
  lemma LegBonesApart() ensures Disjoint(RightLegBones, LeftLegBones) {}

  /** The 67 bone names are pairwise distinct. */
  lemma BonesDistinct()
    ensures |Bones| == 67 && Distinct(Bones)
  {
    SpineBonesDistinct();
    LeftArmBonesDistinct();
    RightArmBonesDistinct();
    LegBonesDistinct();
    SpineArmBonesApart();
    SpineLegBonesApart();
    ArmBonesApart();
    LeftArmBonesApart();
    RightArmBonesApart();
    LegBonesApart();
    DistinctAppend(RightLegBones, LeftLegBones);
    DisjointAppend(RightArmBones, RightLegBones, LeftLegBones);
    DistinctAppend(RightArmBones, RightLegBones + LeftLegBones);
    DisjointAppend(LeftArmBones, RightLegBones, LeftLegBones);
    DisjointAppend(LeftArmBones, RightArmBones, RightLegBones + LeftLegBones);
    DistinctAppend(LeftArmBones, RightArmBones + RightLegBones + LeftLegBones);
    DisjointAppend(SpineBones, RightLegBones, LeftLegBones);
    DisjointAppend(SpineBones, RightArmBones, RightLegBones + LeftLegBones);
    DisjointAppend(SpineBones, LeftArmBones, RightArmBones + RightLegBones + LeftLegBones);
    DistinctAppend(SpineBones, LeftArmBones + RightArmBones + RightLegBones + LeftLegBones);
    assert Bones == SpineBones + (LeftArmBones + (RightArmBones + (RightLegBones + LeftLegBones)));
  }

  /** Every name of every chain is a keypoint name. */
  lemma ChainsUseKeypoints()
    ensures forall k, j :: 0 <= k < |Connected| && 0 <= j < |Connected[k].1| ==> Connected[k].1[j] in Kpt
  {
  }

  /** The torso chain closes its loop: it ends with the two names it starts with. */
  lemma TorsoCloses()
    ensures |Chain("torso")| >= 4
    ensures Chain("torso")[..2] == Chain("torso")[|Chain("torso")| - 2..]
  {
  }

  /** Each pair is a triple whose third entry names a bone. */
  lemma PairsTargetBones()
    ensures forall k :: 0 <= k < |Pairs| ==> |Pairs[k]| == 3 && Pairs[k][2] in Bones
  {
    assert Bones[9] == Pairs[0][2];
    assert Bones[11] == Pairs[1][2];
  }
}

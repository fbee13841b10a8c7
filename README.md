# human-motion: renderer bookkeeping in Dafny

This project models the logic that sits between pose detection and the 3D
scene in human-motion. The detector's body, hand and face results come in.
The model covers what the renderers do with them: which meshes exist, where
they sit and how they are sized. It covers three renderers and one set of
tables:

- **The tube renderer** (`src/draw-mesh.ts`) keeps two tables from part name
  to tube, one for the body and one for the hand. Every frame applies a keyed
  rule per annotated part:
  - delete the part when fewer than two on-canvas points remain;
  - create it when it is new;
  - rebuild it otherwise, and delete it if the rebuild throws.

  It also flattens a 478-point face mesh into a `3i+k` position buffer and
  places two iris spheres on it.
- **The skeleton-mesh renderer** (`src/mesh.ts`) keeps one registry of meshes
  keyed by name:
  - a tube per part and a joint sphere per path point (`desc + i`);
  - a neck and a head;
  - a face surface whose vertex data is built once;
  - two irises and one sphere per landmark past the irises (`augment${i}`).

  It is gated by an `initialized` flag. The first frame places the camera on
  the per-axis range of the points, which `maxmin` computes while skipping
  zero or missing components.
- **The skeleton tables** (`src/coords.ts`): keypoint names, keypoint
  chains, bone names and the (keypoint, keypoint, bone) pairs.
- **The rigged avatar** (`src/avatar.ts`):
  - `mixamorig:` is stripped from the bone names when the skeleton loads;
  - `getPart` and `getBone` are first-match lookups;
  - the pair loop turns each bone whose two keypoints and bone are all found;
  - the camera preset is chosen from the model file's name.

Mutable module state becomes a class with `modifies` clauses: `DrawMesh.Stage`,
`MeshRenderer.Renderer` and `Avatar.Avatar`. Each method is proved equal to a
function of the state before the call, and the properties the source promises
are proved about those functions as lemmas.

The modelling choices:

- Engine meshes are datatype values recording the shape, position and
  scaling they were given.
- A point is a JavaScript number array (`seq<real>`). A missing component
  reads as 0 (`Human.Coord`).
- `Vector3.Distance` and `Math.atan2` are function-valued parameters.
- In `src/draw-mesh.ts`, which tube rebuilds throw in a frame is a parameter
  (`failing`), since that renderer catches the throw. The rebuild in
  `src/mesh.ts` has no catch and is taken to succeed.
- A `throw` in `src/mesh.ts` becomes an `ok: bool` result. The caller then
  stops, as an awaited rejected promise does.

Modules:

- `Wrappers` (wrappers.dfy): `Option`, the stand-in for `undefined`
- `Seqs` (seqs.dfy): `find`/`findIndex`, distinctness
- `Strings` (strings.dfy): `'' + i`, `includes`, `replace` with a string pattern
- `Geometry` (geometry.dfy): `Vector3`, `Math.abs`
- `Human` (human.dfy): the detection result the renderers read
- `Paths` (paths.dfy): point-to-scene mapping and the on-canvas filter
- `Buffers` (buffers.dfy): the `Float32Array` position layout
- `Coords` (coords.dfy): `src/coords.ts`
- `DrawMesh` (draw_mesh.dfy): `src/draw-mesh.ts`
- `Mesh` (mesh.dfy): `src/mesh.ts`: camera framing, `drawPath`, `drawBody`, `drawHead`, `drawHand` as functions
- `MeshFace` (mesh_face.dfy): `src/mesh.ts`: `drawFace` as functions
- `MeshRenderer` (mesh_renderer.dfy): `src/mesh.ts`: the module state and its functions as a class
- `Avatar` (avatar.dfy): `src/avatar.ts`

## Model

| member | source | states |
|---|---|---|
| `Human.Coord` | src/draw-mesh.ts:102 | component k of a point, 0 when the point has no such component (`pt[2] \|\| 0`) |
| `Human.FindKeypoint` | src/mesh.ts:91-94 | the first keypoint of a part, or none exactly when no keypoint has that part |
| `Geometry.Abs` | src/mesh.ts:59 | `Math.abs`: non-negative and equal to the argument or its negation |
| `Geometry.Uniform` | src/draw-mesh.ts:203 | a scaling vector with all three components equal to the size |
| `Seqs.FindIndex` | src/avatar.ts:44 | `find`: the index of the first match, none exactly when nothing matches |
| `Seqs.FindIndexIsFirst` | src/avatar.ts:45 | a match with no earlier match is the one `find` returns |
| `Seqs.DistinctFindsOwnIndex` | src/coords.ts:3-43 | in a list without duplicates, looking a name up finds its own position |
| `Strings.NatToString` | src/mesh.ts:69 | the suffix `i` of `desc + i`: a non-empty string of decimal digits whose last digit is `i % 10`, a single digit exactly when `i < 10` |
| `Strings.NatToStringInjective` | src/mesh.ts:69 | different indices render differently |
| `Strings.SuffixedInjective` | src/mesh.ts:69 | `desc + i` and `desc + j` are different keys for different i and j |
| `Strings.IndexOf` | src/avatar.ts:11 | `indexOf`: an occurrence with none before it, or none exactly when the pattern occurs nowhere |
| `Strings.ReplaceFirst` | src/avatar.ts:31 | `replace` with a string pattern: the string unchanged when the pattern does not occur, else one occurrence replaced |
| `Strings.ReplaceLeadingPattern` | src/avatar.ts:31 | a string that starts with the pattern loses exactly that prefix |
| `Strings.ReplaceFirstSplits` | src/avatar.ts:31 | the occurrence replaced is the first, and the text around it is kept |
| `Paths.Norm` | src/draw-mesh.ts:102 | x divided by the width, y flipped after dividing by the height, z (0 when missing) divided by 512 |
| `Paths.FlattenAppend` | src/draw-mesh.ts:99-100 | joining sub-part lists distributes over concatenation |
| `Paths.FullPathAppend` | src/mesh.ts:109-110 | mapping every point distributes over concatenation |
| `Paths.VisiblePathAppend` | src/draw-mesh.ts:99-104 | the on-canvas filter distributes over concatenation, so the annotation order is kept |
| `Paths.VisiblePathMembers` | src/draw-mesh.ts:155-158 | the path holds exactly the images of the points with x > 0 and y > 0, and is no longer than the input |
| `Paths.VisiblePathAllVisible` | src/draw-mesh.ts:156-157 | with every point on the canvas, nothing is dropped |
| `Paths.VisiblePathNoneVisible` | src/draw-mesh.ts:156-157 | with no point on the canvas, the path is empty |
| `Paths.FilterPoints` | src/draw-mesh.ts:154-159 | the push loop over one part builds exactly the filtered path |
| `Paths.FilterParts` | src/draw-mesh.ts:98-105 | the nested push loop builds the filtered path of the flattened sub-parts |
| `Paths.NormParts` | src/mesh.ts:108-111 | the nested push loop maps every point of every sub-part, in order |
| `Buffers.LayoutSlots` | src/draw-mesh.ts:190-195 | the buffer has 3n slots, and slots 3i, 3i+1 and 3i+2 depend on point i alone |
| `Buffers.FillPositions` | src/mesh.ts:137-142 | the index loop fills the whole buffer as the layout says |
| `Coords.Chain` | src/coords.ts:45-56 | the chain stored under a key of `connected`, and the empty chain for a name that is no key |
| `Coords.KptDistinct` | src/coords.ts:3-43 | `kpt` has 39 pairwise distinct names |
| `Coords.KptNumbering` | src/coords.ts:3-43 | looking a name up in `kpt` gives the landmark number in its comment |
| `Coords.BonesDistinct` | src/coords.ts:58-126 | `bones` has 67 pairwise distinct names |
| `Coords.ChainsUseKeypoints` | src/coords.ts:45-56 | every name of every chain is a keypoint name |
| `Coords.TorsoCloses` | src/coords.ts:48 | the torso chain ends with the two names it starts with |
| `Coords.PairsTargetBones` | src/coords.ts:128-131 | each pair is a triple whose third entry is a bone name |
| `DrawMesh.RebuildTube` | src/draw-mesh.ts:115-122 | a rebuild yields the tube on the new path unless it throws |
| `DrawMesh.PartStep` | src/draw-mesh.ts:106-123 | the keyed rule: fewer than two points means absent; new means created; existing means kept exactly when the rebuild does not throw; every other key and tube unchanged; keys stay tube names |
| `DrawMesh.TableFoldKeyed` | src/draw-mesh.ts:97-124 | after a frame every tube is still stored under its own name |
| `DrawMesh.TableFoldLeavesOthers` | src/draw-mesh.ts:97-124 | a key that names no part of the frame keeps its tube: stale parts are never swept |
| `DrawMesh.TableFoldOutcome` | src/draw-mesh.ts:106-123 | with distinct part names, a part is present after the frame exactly when it has two points and was new or rebuilt without throwing; it then holds this frame's path |
| `DrawMesh.RecordPathsAt` | src/draw-mesh.ts:160 | every hand part's filtered path is recorded in `window.path`, whatever its length |
| `DrawMesh.RecordPathsKeys` | src/draw-mesh.ts:160 | recording adds the part names and nothing else |
| `DrawMesh.EyeSize` | src/draw-mesh.ts:201 | five times the summed iris widths, never negative |
| `DrawMesh.IrisSlots` | src/draw-mesh.ts:201-205 | the buffer slots read for the irises are landmarks 468, 469, 471, 473, 474 and 476 as scaled |
| `DrawMesh.FaceStepFromBuffer` | src/draw-mesh.ts:190-205 | the face step as the renderer reads it from the buffer |
| `DrawMesh.FaceStepGate` | src/draw-mesh.ts:183-189 | apart from creating the eye spheres when one is missing, a mesh without exactly 478 points changes nothing |
| `DrawMesh.FaceStepDraws` | src/draw-mesh.ts:189-205 | a 478-point mesh replaces the vertex data and puts the irises on landmarks 468 and 473; existing eye spheres are kept |
| `DrawMesh.Stage.constructor` | src/draw-mesh.ts:4-17 | at module load there is no scene yet; the tube tables are empty and there are no eye spheres |
| `DrawMesh.Stage.Init` | src/draw-mesh.ts:31-93 | the scene exists afterwards, with a new triangulation, an empty face mesh and an empty `window.path`; tube tables and eye spheres persist |
| `DrawMesh.Stage.Body` | src/draw-mesh.ts:96-125 | once the scene exists, the body table after the loop is the keyed rule folded over the annotations |
| `DrawMesh.Stage.Hand` | src/draw-mesh.ts:152-180 | once the scene exists, the hand table and `window.path` after the loop are the keyed rule and the recording folded over the annotations |
| `DrawMesh.Stage.Face` | src/draw-mesh.ts:182-206 | once the scene exists, the face mesh and eye spheres after the call are the face step of the state before it |
| `DrawMesh.Stage.Draw` | src/draw-mesh.ts:208-212 | once the scene exists, body, hand and face drawn from the first of each, only when present |
| `Mesh.MinAxisIsLower` | src/mesh.ts:43-45 | the running minimum is at most the sentinel and at most every non-zero value of the axis |
| `Mesh.MinAxisAttained` | src/mesh.ts:43-45 | the running minimum is the sentinel or a non-zero value of the axis |
| `Mesh.MinAxisSentinel` | src/mesh.ts:40 | an axis without a non-zero value keeps `MAX_SAFE_INTEGER` as its minimum |
| `Mesh.MaxAxisIsUpper` | src/mesh.ts:46-48 | the running maximum is at least the sentinel and every non-zero value of the axis |
| `Mesh.MaxAxisAttained` | src/mesh.ts:46-48 | the running maximum is the sentinel or a non-zero value of the axis |
| `Mesh.MaxAxisSentinel` | src/mesh.ts:41 | an axis without a non-zero value keeps `MIN_SAFE_INTEGER` as its maximum |
| `Mesh.MaxMin` | src/mesh.ts:39-51 | the loop returns the per-axis running minimum and maximum of all three axes |
| `Mesh.Midpoint` | src/mesh.ts:54 | `(hi - lo) / 2 + lo` is the mean of the two, and lies between them when lo ≤ hi |
| `Mesh.CameraFrames` | src/mesh.ts:53-55 | the target lies in the x range and the y range at z = 0; the camera is above it at max y and z = -13; an axis without data centres on 0 |
| `Mesh.JointKey` | src/mesh.ts:69 | `desc + i` is longer than `desc` |
| `Mesh.JointKeysDiffer` | src/mesh.ts:69 | different joints of one part have different keys |
| `Mesh.PathLength` | src/mesh.ts:59 | a tenth of the end-to-end distance, never negative |
| `Mesh.Diameter` | src/mesh.ts:63 | the tube diameter is at least 0.015 |
| `Mesh.WithJointsKeys` | src/mesh.ts:68-72 | the first-sight loop adds exactly the joint keys 0 .. n-1 |
| `Mesh.WithJointsKeeps` | src/mesh.ts:68-72 | the first-sight loop leaves every other mesh alone |
| `Mesh.PlacedKeys` | src/mesh.ts:75-78 | the joint loop adds only joint keys of the part |
| `Mesh.PlacedKeeps` | src/mesh.ts:75-78 | the joint loop leaves every other mesh alone |
| `Mesh.PlacedAt` | src/mesh.ts:75-78 | joint i ends on path point i, scaled to 1.1 times the diameter |
| `Mesh.PathStepDraws` | src/mesh.ts:61-79 | after `drawPath` the tube follows the path with half the diameter as radius, and joint i sits on point i |
| `Mesh.PathStepKeys` | src/mesh.ts:64-74 | `drawPath` adds exactly the tube and the joints of the part that were missing |
| `Mesh.PathStepJoints` | src/mesh.ts:75-78 | after `drawPath` every joint of the path exists |
| `Mesh.PathStepOthers` | src/mesh.ts:61-79 | keys that are not the part's own keep their meshes |
| `Mesh.FirstMissingJoint` | src/mesh.ts:75-76 | the joint loop as written moves the joints up to the first one missing: all that count are present, and the next is missing unless the path is done |
| `Mesh.FirstMissingJointUnique` | src/mesh.ts:75-76 | any count with those two properties is that count |
| `Mesh.PathStepAsWritten` | src/mesh.ts:61-79 | `drawPath` as written on a non-empty path completes exactly when every joint of the path exists after the first-sight block, and then agrees with the completing step; it never removes a key |
| `Mesh.PathStepAsWrittenIs` | src/mesh.ts:61-79 | a joint loop that stops at the first missing joint of the rebuilt registry leaves what `drawPath` as written leaves, and completes exactly when it reached the end of the path |
| `Mesh.GrownPathThrows` | src/mesh.ts:64-76 | a part already drawn whose new path reaches a joint the registry lacks throws |
| `Mesh.PathStepAsWrittenOthers` | src/mesh.ts:61-79 | as written too, keys that are not the part's own keep their meshes, whether or not the call completes |
| `Mesh.BodyEntries` | src/mesh.ts:107-111 | each body part's path is every point of its sub-parts, mapped, in order |
| `Mesh.DrawPathsOk` | src/mesh.ts:107-113 | with the corrected `drawPath`, the parts loop completes exactly when no part's path is empty |
| `Mesh.DrawPathsStops` | src/mesh.ts:107-113 | with the corrected `drawPath`, the first empty path ends the loop with the registry as it was just before it |
| `Mesh.DrawPathsKeys` | src/mesh.ts:107-113 | a completed parts loop adds exactly the keys its parts own |
| `Mesh.DrawPathsOthers` | src/mesh.ts:107-113 | keys no part owns keep their meshes, whether or not the loop completes |
| `Mesh.DrawPathsAsWrittenAgrees` | src/mesh.ts:107-113 | a parts loop that completes as written leaves what the corrected loop leaves |
| `Mesh.DrawPathsAsWrittenKeeps` | src/mesh.ts:107-113 | the parts loop as written never removes a key |
| `Mesh.DrawPathsAsWrittenOthers` | src/mesh.ts:107-113 | as written too, keys no part owns keep their meshes |
| `Mesh.DrawPathsAsWrittenGrown` | src/mesh.ts:107-113 | through the throw at src/mesh.ts:76, a body part already drawn whose path reaches a joint neither the registry nor an earlier part has makes the parts loop throw as written |
| `Mesh.ScoredRaw` | src/mesh.ts:106 | the raw positions of exactly the keypoints with a positive score |
| `Mesh.Center` | src/mesh.ts:83 | `center` of two points: three components, each the mean |
| `Mesh.HeadProportions` | src/mesh.ts:95-102 | the neck runs from the shoulder centre halfway to the eye centre, the head sits three quarters of the way, and the head size is at least 0.2 |
| `Mesh.HeadStepOk` | src/mesh.ts:86-104 | the head exists afterwards; the step completes exactly when both eyes and both shoulders are found; otherwise nothing but the head changed |
| `Mesh.HeadPlaced` | src/mesh.ts:98-103 | the head sits on the scaled centre, is 1.1 times taller than wide, and the neck tube follows the neck path |
| `Mesh.NeckPath` | src/mesh.ts:98 | the neck path has two points |
| `Mesh.HandRaw` | src/mesh.ts:118 | the framing points of a hand: x and y divided by the canvas size, z kept (0 when missing) |
| `Mesh.HandEntries` | src/mesh.ts:119-123 | each hand part's path is its on-canvas points, mapped, in order |
| `Mesh.HandPathsKeys` | src/mesh.ts:119-125 | with the corrected `drawPath`, the hand adds exactly the keys owned by its parts with two or more points |
| `Mesh.HandPathsOthers` | src/mesh.ts:119-125 | keys of no drawn hand part keep their meshes |
| `Mesh.HandPathsAsWrittenAgrees` | src/mesh.ts:119-125 | a hand that completes as written leaves what the corrected hand leaves |
| `Mesh.HandPathsAsWrittenKeeps` | src/mesh.ts:119-125 | the hand as written never removes a key |
| `Mesh.HandPathsAsWrittenOthers` | src/mesh.ts:119-125 | as written too, keys of no drawn hand part keep their meshes |
| `Mesh.HandPathsAsWrittenGrown` | src/mesh.ts:119-125 | through the throw at src/mesh.ts:76, a hand part already drawn, now with two or more on-canvas points reaching a joint neither the registry nor an earlier drawn part has, makes the hand throw as written |
| `Mesh.HeadStepAsWrittenAgrees` | src/mesh.ts:85-104 | a head step that completes as written is the corrected one and has found all four keypoints |
| `Mesh.BodyStepAsWrittenAgrees` | src/mesh.ts:106-115 | a body step that completes as written is the corrected one |
| `Mesh.BodyStepAsWrittenKeeps` | src/mesh.ts:106-115 | `drawBody` as written never removes a key, whether or not it throws |
| `Mesh.HeadStepAsWrittenKeeps` | src/mesh.ts:85-104 | `drawHead` as written never removes a key |
| `MeshFace.FlatUVs` | src/mesh.ts:149 | `flat()` of the texture map: two slots per pair, in order |
| `MeshFace.Repositioned` | src/mesh.ts:152 | updating the vertex positions changes the positions only |
| `MeshFace.IrisSize` | src/mesh.ts:174 | the summed iris widths, never negative |
| `MeshFace.AugmentKeyApart` | src/mesh.ts:181 | `augment${i}` never names the face or an iris |
| `MeshFace.AugmentsApart` | src/mesh.ts:180-184 | no augment key of the loop names the face or an iris |
| `MeshFace.AugmentedKeys` | src/mesh.ts:180-184 | the augment loop adds exactly the keys of its landmarks |
| `MeshFace.AugmentedKeeps` | src/mesh.ts:180-184 | the augment loop leaves every other mesh alone |
| `MeshFace.AugmentStepAt` | src/mesh.ts:182-183 | one iteration puts sphere i on buffer point i, creating it when missing |
| `MeshFace.AugmentStepOther` | src/mesh.ts:182-183 | one iteration changes only sphere i |
| `MeshFace.AugmentedAt` | src/mesh.ts:180-184 | sphere i ends on buffer point i with depth divided by 20, and a new one has diameter 0.005 |
| `MeshFace.IrisesPlaced` | src/mesh.ts:166-178 | both irises exist, are recreated together when either is missing, sit on landmarks 468 and 473 scaled to the iris size; nothing else changes |
| `MeshFace.TailKeepsFace` | src/mesh.ts:165-184 | the iris and augment steps leave the face mesh alone |
| `MeshFace.FaceStepSurface` | src/mesh.ts:133-152 | from 468 landmarks the face carries this frame's positions; with the corrected surface block (Findings row 2), a new face or missing vertex data takes the triangulation and texture map; otherwise triangles and vertex data are kept |
| `MeshFace.FaceStepIrisBuffer` | src/mesh.ts:165-178 | from 478 landmarks both irises sit on buffer points 468 and 473 with depth divided by 10, scaled to the iris size |
| `MeshFace.FaceStepIrises` | src/mesh.ts:165-178 | the same in landmark terms: y flipped and stretched, depth divided by 15 |
| `MeshFace.IrisSlots` | src/mesh.ts:137-142 | the buffer slots the iris step reads, in landmark terms |
| `MeshFace.FaceBufferPoint` | src/mesh.ts:137-142 | buffer point i in landmark terms |
| `MeshFace.FaceStepAugmentBuffer` | src/mesh.ts:180-184 | every landmark past 478 gets a sphere on its buffer point with depth divided by 20, new ones of diameter 0.005 |
| `MeshFace.FaceStepAugments` | src/mesh.ts:180-184 | the same in landmark terms, depth divided by 30 |
| `MeshFace.SphereOnLandmark` | src/mesh.ts:183 | a sphere on buffer point i sits on landmark i as scaled |
| `MeshFace.FaceStepKeys` | src/mesh.ts:128-185 | below 468 landmarks nothing is added; below 478 only the face; from 478 the face, the irises and one sphere per extra landmark; all other meshes are kept |
| `MeshFace.FaceStepAgrees` | src/mesh.ts:145-151 | the corrected face step differs from the one as written only for a face mesh recreated while vertex data exists |
| `MeshFace.RecreatedFaceUntriangulated` | src/mesh.ts:145-152 | as written, a recreated face gets positions but no triangles or texture coordinates; corrected, it gets both |
| `MeshRenderer.FramedOnce` | src/mesh.ts:106 | only the first framing moves the camera; framing never touches the meshes or the vertex data |
| `MeshRenderer.DrawFrameFrames` | src/mesh.ts:187-192 | a frame with any model initializes the scene; the first frame frames the first model present, body before hand before face |
| `MeshRenderer.DrawFrameStops` | src/mesh.ts:187-192 | with the corrected `drawPath`, a body that throws ends the frame before the hand and face; otherwise the frame completes |
| `MeshRenderer.DrawFrameAsWrittenStops` | src/mesh.ts:187-192 | as written, the frame completes exactly when neither the body nor the hand throws; a throw in either ends the frame there, and the face is not drawn |
| `MeshRenderer.DrawFrameAsWrittenAgrees` | src/mesh.ts:187-192 | a frame that completes as written, on a state with a face mesh or without vertex data, is the corrected frame |
| `MeshRenderer.BodyFrameAsWrittenAgrees` | src/mesh.ts:106-115 | a body that completes as written is the corrected body frame; it keeps the face mesh and leaves the vertex data alone |
| `MeshRenderer.HandFrameAsWrittenAgrees` | src/mesh.ts:117-126 | a hand that completes as written is the corrected hand frame; it keeps the face mesh and leaves the vertex data alone |
| `MeshRenderer.FaceFrameAsWrittenAgrees` | src/mesh.ts:128-151 | with a face mesh in place or no vertex data yet, the face frame as written is the corrected one |
| `MeshRenderer.GrownBodyPathStopsFrame` | src/mesh.ts:187-192 | as written, through the throw at src/mesh.ts:76, a body part whose path has grown past its joints makes the frame throw before the hand and the face |
| `MeshRenderer.GrownHandPathThrows` | src/mesh.ts:117-126 | as written, through the throw at src/mesh.ts:76, a hand part whose filtered path has grown past its joints makes drawHand throw |
| `MeshRenderer.LongerPathMissesJoint` | src/mesh.ts:64-78 | as written, a part first drawn with n points lacks joint n when a longer path comes |
| `MeshRenderer.PlacedKeepsKeys` | src/mesh.ts:75-78 | with the first n joints present, the joint loop adds no key |
| `MeshRenderer.Sight` | src/mesh.ts:64-73 | the first-sight block creates the tube and one joint per point for a new part only |
| `MeshRenderer.UpdateJoints` | src/mesh.ts:75-78 | the joint loop as written updates joints until the first missing one, which it reports |
| `MeshRenderer.PlaceJoints` | src/mesh.ts:75-78 | the corrected joint loop places every joint, creating a missing one |
| `MeshRenderer.UpdateSurface` | src/mesh.ts:133-152 | the surface block: the face created when missing, vertex data built when none exists or the face is new, then this frame's positions |
| `MeshRenderer.UpdateIrises` | src/mesh.ts:166-178 | the iris block |
| `MeshRenderer.UpdateAugments` | src/mesh.ts:180-184 | the augment loop |
| `MeshRenderer.PlaceHeadIs` | src/mesh.ts:99-103 | the head is moved and scaled on the registry the neck left |
| `MeshRenderer.DrawPathsNext` | src/mesh.ts:107-113 | the parts loop of `drawBody` one part further |
| `MeshRenderer.HandPathsNext` | src/mesh.ts:119-125 | the parts loop of `drawHand` one part further |
| `MeshRenderer.Renderer.constructor` | src/mesh.ts:6-10 | no scene, no meshes, no vertex data |
| `MeshRenderer.Renderer.Init` | src/mesh.ts:12-21 | the scene exists and is not initialized, the meshes are empty, and the triangulation and texture map are replaced |
| `MeshRenderer.Renderer.CenterCamera` | src/mesh.ts:23-57 | the scene is initialized and the camera ends on the target and position of the points' range |
| `MeshRenderer.Renderer.DrawPathAsWritten` | src/mesh.ts:61-79 | `drawPath` as written: nothing before initialization, an empty path throws, and the joint loop throws on the first joint never created |
| `MeshRenderer.Renderer.DrawPath` | src/mesh.ts:61-79 | `drawPath` corrected: nothing before initialization; completes exactly for a non-empty path and then draws the part |
| `MeshRenderer.Renderer.DrawHead` | src/mesh.ts:85-104 | nothing before initialization; otherwise the head step, which throws when an eye or shoulder is missing |
| `MeshRenderer.Renderer.DrawNeckAndHead` | src/mesh.ts:95-103 | the neck drawn as a part, then the head moved and scaled |
| `MeshRenderer.Renderer.DrawBody` | src/mesh.ts:106-115 | with the corrected `drawPath`: framing on the scored keypoints when needed, the parts in order, then the head |
| `MeshRenderer.Renderer.DrawHand` | src/mesh.ts:117-126 | with the corrected `drawPath`: framing on the scaled keypoints when needed, then the parts with two or more on-canvas points |
| `MeshRenderer.Renderer.DrawFace` | src/mesh.ts:128-185 | framing on the raw mesh when needed, then the corrected face step |
| `MeshRenderer.Renderer.Draw` | src/mesh.ts:187-192 | with the corrected `drawPath` and face step: nothing without a scene; otherwise body, hand and face from the first of each, ending early when the body throws |
| `Avatar.Angle` | src/avatar.ts:47-53 | pitch, roll and yaw from the coordinate differences, depth divided by 256 |
| `Avatar.GetPart` | src/avatar.ts:45 | the raw position of the first keypoint of that part, none exactly when there is none |
| `Avatar.BoneIndex` | src/avatar.ts:44 | the position of the first bone of that name, none exactly when there is none |
| `Avatar.GetBone` | src/avatar.ts:44 | a bone exactly when there is a scene, a skeleton and a bone of that name, and then the first bone of that name |
| `Avatar.AimOf` | src/avatar.ts:61-65 | an entry's bone name, with its angle exactly when both keypoints are found |
| `Avatar.Aims` | src/avatar.ts:60 | the entries of the table taken one by one |
| `Avatar.Target` | src/avatar.ts:63-64 | an entry turns a bone exactly when both keypoints and the bone are found, and then the first bone of that name |
| `Avatar.TargetIsGetBone` | src/avatar.ts:63-64 | the bone an entry turns is the one `getBone` returns, and an entry turns one exactly when both keypoints are found and `getBone` finds the bone |
| `Avatar.Posed` | src/avatar.ts:60-68 | turning bones keeps their names and positions in the skeleton |
| `Avatar.SameNamesSameIndex` | src/avatar.ts:44 | a lookup by name sees only the names, so turning bones never changes later lookups |
| `Avatar.IncompletePairSkipped` | src/avatar.ts:64 | an incomplete entry changes nothing and the entries after it are still taken |
| `Avatar.TurnAt` | src/avatar.ts:67 | one entry changes at most the bone it names |
| `Avatar.PosedSetsBone` | src/avatar.ts:60-68 | in a table naming each bone once, every complete entry leaves its bone at its angle |
| `Avatar.PosedLeavesBone` | src/avatar.ts:60-68 | a bone no complete entry names keeps its rotation |
| `Avatar.PairsAimDistinct` | src/coords.ts:128-131 | the pairs table is made of triples naming each bone once |
| `Avatar.TurnBones` | src/avatar.ts:60-68 | the loop over the table turns the bones as the entries say, in order |
| `Avatar.DrawTurnsEachBoneOnce` | src/avatar.ts:60-68 | after a draw, each entry whose keypoints and bone are found has turned that bone by its angle, and no other bone moved |
| `Avatar.Loaded` | src/avatar.ts:31-32 | loading keeps the number of bones |
| `Avatar.UnriggedStripsPrefix` | src/avatar.ts:31 | `mixamorig:` + name becomes name; a name that contains `mixamorig:` nowhere is unchanged |
| `Avatar.LoadedFindsBone` | src/avatar.ts:31 | after loading, a prefixed bone is found under its plain name |
| `Avatar.LoadBones` | src/avatar.ts:31-32 | the renaming loop renames every bone and returns it to rest |
| `Avatar.PresetFor` | src/avatar.ts:10-21 | the `ybot` preset when the file name contains `ybot`, else the skull preset when it contains `skull`, else none |
| `Avatar.ModelUrlSelectsYbot` | src/avatar.ts:7-20 | the model file contains `ybot` and not `skull`, so the `ybot` preset applies |
| `Avatar.Avatar.constructor` | src/avatar.ts:8 | no scene and no skeleton |
| `Avatar.Avatar.Position` | src/avatar.ts:10-21 | with the scene in place (it reads `t.camera` and `t.light`), the two checks in turn leave the `ybot` camera position, target and light direction |
| `Avatar.Avatar.Init` | src/avatar.ts:23-41 | a scene exists; the first loaded skeleton, if any, is named `ybot` with its bones renamed and at rest; the `ybot` preset applies |
| `Avatar.Avatar.Draw` | src/avatar.ts:55-70 | nothing without a scene, a first body or a skeleton; otherwise the bones are turned by the table |

## Left out

- I/O and engine setup are not modelled. This covers canvas, engine, scene, lights, materials, shadows, skybox, the render loop, `console.log`, `window` diagnostics other than `window.path`, `dispose`, and `renderingGroupId`.
- The camera animation and its `setTimeout` are not modelled. Only the target and position the camera ends on are kept.
- `src/draw-mesh.ts` `position` (the per-view camera presets) and `src/draw-avatar.ts` are not part of this model.
- `src/index.ts`, `src/worker.ts`, `src/scene.ts`, `src/environment.ts` and the overlays are not part of this model. They are DOM, worker and engine wiring.
- Floating point is not modelled:
  - numbers are unbounded reals;
  - the face buffer's Float32 rounding, NaN and Infinity are not represented.
- A missing z component reads as 0 everywhere. In `drawHead` (src/mesh.ts:82) and in the 478-point face of src/draw-mesh.ts:194 the source has no `|| 0`, so JavaScript would compute NaN there.
- In `src/avatar.ts:50-52` a missing component would also give NaN; the model reads it as 0.
- `Paths.Dim`: a canvas dimension must be non-zero, since JavaScript would divide to Infinity.
- `Math.atan2` is a parameter. The angles are stated in terms of it, not computed.
- Tube and sphere construction are opaque: a mesh records the options it was given. In `src/draw-mesh.ts` which tube rebuilds throw is a parameter.
- `Mesh.Retubed`: the tube rebuild of `src/mesh.ts:74` (`CreateTube` with `instance`) is taken never to throw. That call has no catch, so any engine failure there would reject `drawPath`; the model does not represent one.
- `Avatar.Avatar.Init`: the shadow caster, `receiveShadows`, `returnToRest`'s actual rest pose (modelled as "no rotation") and `defaults()` are not modelled. The loader's asynchronous callback is the method's `skeletons` parameter.
- `Avatar.Avatar.Draw`: without a skeleton every `getBone` call is undefined, so the loop is skipped instead of walked without effect.
- `DrawMesh.Stage.Init`: the `wait(100)` and the disposal of the old engine and scene are not modelled.
- `DrawMesh.Stage.constructor`: `scene`, `shadows`, `faceMesh`, `faceTriangulation` and `window.path` are undefined until `init` (src/draw-mesh.ts:4-17, 31-93). A draw before `init` throws in the source as soon as it reaches one of them: any body annotation (`scene.meshes` at src/draw-mesh.ts:107, `shadows.addShadowCaster` at :113), any hand annotation (`window.path[desc]` at :160) and a face of exactly 478 points (`applyToMesh(faceMesh)` at :199). The model has no undefined values, so `Stage.Body`, `Stage.Hand`, `Stage.Face` and `Stage.Draw` require `hasScene`, and draws before `init` are not modelled. The fields the constructor sets besides `hasScene` are placeholders that no method reads before `Init`.
- `DrawMesh.Stage.Init` keeps the eye handles while the source's `init` disposes the old scene (src/draw-mesh.ts:36). `face` tests only whether the handles are set (src/draw-mesh.ts:183), so after a second `init` the eyes keep pointing at meshes of the disposed scene and are never recreated. The model keeps the handles too, but it has no notion of a disposed mesh.
- `MeshRenderer.Renderer.DrawFace` uses the corrected face step (see Findings). The code as written is `MeshFace.FaceStepAsWritten`.
- `MeshRenderer.Renderer.DrawPath` uses the corrected joint loop (see Findings). The code as written is `MeshRenderer.Renderer.DrawPathAsWritten`.
- `MeshRenderer.Renderer.DrawBody` uses the corrected drawPath, so the throw on a body path that has grown since it was first seen (src/mesh.ts:76) is missing from it. The as-written body is `Mesh.BodyStepAsWritten` and `MeshRenderer.BodyFrameAsWritten`, executed by no method.
- `MeshRenderer.Renderer.DrawHand` uses the corrected drawPath, so the throw on a filtered hand path that has grown is missing from it. The as-written hand is `Mesh.HandPathsAsWritten` and `MeshRenderer.HandFrameAsWritten`.
- `MeshRenderer.Renderer.Draw` uses the corrected drawPath and face step, so it ends early only when the body throws. The frame as written, which also ends when the hand throws, is `MeshRenderer.DrawFrameAsWritten`.
- `MeshRenderer.Renderer.DrawNeckAndHead` uses the corrected drawPath for the neck. The neck path always has two points, so it cannot grow unless a body annotation is also named `neck`.
- `Mesh.DrawPathsOk` and `Mesh.DrawPathsStops` are about the corrected parts loop. As written the loop also throws on a grown path (`Mesh.DrawPathsAsWrittenGrown`).
- `Mesh.HandPathsKeys` is about the corrected hand loop. As written the hand can end partway (`Mesh.HandPathsAsWrittenGrown`).
- `MeshRenderer.DrawFrameStops` is about the corrected frame. The frame as written is covered by `MeshRenderer.DrawFrameAsWrittenStops`.
- `Avatar.Posed`: bones are values in a sequence. Aliasing between bone objects is not modelled.

## Findings

| source | as written | input that shows it | evidently intended | confidence | as-written member | corrected member |
|---|---|---|---|---|---|---|
| src/mesh.ts:64-78 | joint spheres `desc+i` are created only when the part is first seen; later calls only update `meshes[desc + i]` | a hand part first drawn with 2 on-canvas points, later with 3: `meshes[desc + '2']` is undefined and setting its position throws | every point of the current path has a joint | not executed | `MeshRenderer.Renderer.DrawPathAsWritten`, `MeshRenderer.LongerPathMissesJoint`, `MeshRenderer.GrownBodyPathStopsFrame` | `MeshRenderer.Renderer.DrawPath`, `Mesh.PathStepJoints` |
| src/mesh.ts:12-21, 133-151 | `init` empties `meshes` but keeps `faceVertexData`, and vertex data is applied only when none exists | a face drawn, then `init`, then a face again: the new face mesh gets positions but no indices or uvs | a new face mesh receives the triangulation and texture map | not executed | `MeshFace.FaceStepAsWritten`, `MeshFace.RecreatedFaceUntriangulated` | `MeshFace.FaceStep`, `MeshFace.FaceStepSurface` |

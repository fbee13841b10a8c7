/**
 * The detection result handed to the renderers by the external tracking
 * library. Only the fields the renderers read are modelled. A point is a
 * JavaScript number array; records keyed by part name are sequences of
 * (name, value) entries in insertion order, which is the order in which
 * `Object.entries` yields them for part names that are not array indices
 * (integer-like keys would come first, in ascending order). A record cannot
 * repeat a key while a sequence can; the lemmas that need distinct names
 * say so in their preconditions.
 */
module Human {
  import opened Wrappers
  import Seqs

  type Point = seq<real>

  /**
   * Component `k` of a point, where a missing component reads as 0: the
   * `pt[k] || 0` idiom, and the way a missing component behaves under the
   * `> 0` and truthiness tests the renderers apply.
   */
  function Coord(pt: Point, k: nat): (r: real)
    ensures k < |pt| ==> r == pt[k]
    ensures |pt| <= k ==> r == 0.0
  {
    if k < |pt| then pt[k] else 0.0
  }

  datatype BodyKeypoint = BodyKeypoint(part: string, position: Point, positionRaw: Point, score: real)

  /** `keypoints.find((kpt) => kpt.part === name)`: the first keypoint of
      that part, or none. */
  function FindKeypoint(kpts: seq<BodyKeypoint>, name: string): (r: Option<BodyKeypoint>)
    ensures r.None? <==> forall i :: 0 <= i < |kpts| ==> kpts[i].part != name
    ensures r.Some? ==>
      (exists i :: 0 <= i < |kpts| && kpts[i] == r.value && forall j :: 0 <= j < i ==> kpts[j].part != name)
    ensures r.Some? ==> r.value.part == name
  {
    match Seqs.FindIndex(kpts, (k: BodyKeypoint) => k.part == name)
    case Some(i) => Some(kpts[i])
    case None => None
  }

  /** `annotations`: part name to the list of sub-part point lists. */
  datatype BodyResult = BodyResult(keypoints: seq<BodyKeypoint>, annotations: seq<(string, seq<seq<Point>>)>)

  /** `annotations`: part name to its point list. */
  datatype HandResult = HandResult(keypoints: seq<Point>, annotations: seq<(string, seq<Point>)>)

  datatype FaceResult = FaceResult(meshRaw: seq<Point>)

  datatype Result = Result(body: seq<BodyResult>, hand: seq<HandResult>, face: seq<FaceResult>)

  /** The keys of a record are distinct. */
  predicate UniqueNames<T>(entries: seq<(string, T)>)
  {
    forall i, j :: 0 <= i < j < |entries| ==> entries[i].0 != entries[j].0
  }
}

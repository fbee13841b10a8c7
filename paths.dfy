/**
 * Building a tube path from detected points: every point is mapped into
 * scene coordinates by dividing by the canvas size, flipping y and
 * squashing z; some call sites first drop points that are not on the
 * canvas (x or y not positive).
 */
module Paths {
  import opened Human
  import opened Geometry

  /** A canvas dimension. JavaScript would divide by a zero width and yield
      Infinity; the model needs it non-zero. */
  type Dim = r: real | r != 0.0 witness 1.0

  /** The `pt[0] > 0 && pt[1] > 0` filter. */
  predicate Visible(pt: Point)
  {
    Coord(pt, 0) > 0.0 && Coord(pt, 1) > 0.0
  }

  /** `new Vector3(pt[0] / w, 1 - pt[1] / h, (pt[2] || 0) / 256 / 2)`. */
  function Norm(pt: Point, width: Dim, height: Dim): (v: Vec3)
    ensures v.x * width == Coord(pt, 0)
    ensures (1.0 - v.y) * height == Coord(pt, 1)
    ensures v.z * 512.0 == Coord(pt, 2)
  {
    Vec3(Coord(pt, 0) / width, 1.0 - Coord(pt, 1) / height, Coord(pt, 2) / 256.0 / 2.0)
  }

  /** Sub-part point lists joined in order. */
  function Flatten<T>(parts: seq<seq<T>>): seq<T>
  {
    if parts == [] then [] else Flatten(parts[..|parts| - 1]) + parts[|parts| - 1]
  }

  /** Every point mapped, nothing dropped. */
  function FullPath(pts: seq<Point>, width: Dim, height: Dim): seq<Vec3>
  {
    seq(|pts|, i requires 0 <= i < |pts| => Norm(pts[i], width, height))
  }

  /** The visible points mapped, in order. */
  function VisiblePath(pts: seq<Point>, width: Dim, height: Dim): seq<Vec3>
  {
    if pts == [] then []
    else
      var last := pts[|pts| - 1];
      VisiblePath(pts[..|pts| - 1], width, height) + (if Visible(last) then [Norm(last, width, height)] else [])
  }

  lemma {:induction false} FlattenAppend<T>(a: seq<seq<T>>, b: seq<seq<T>>)
    ensures Flatten(a + b) == Flatten(a) + Flatten(b)
  {
    if b == [] {
      assert a + b == a;
    } else {
      assert (a + b)[..|a + b| - 1] == a + b[..|b| - 1];
      FlattenAppend(a, b[..|b| - 1]);
    }
  }

  lemma FullPathAppend(a: seq<Point>, b: seq<Point>, width: Dim, height: Dim)
    ensures FullPath(a + b, width, height) == FullPath(a, width, height) + FullPath(b, width, height)
  {
  }

  /** Filtering distributes over concatenation, so order is kept. */
  lemma {:induction false} VisiblePathAppend(a: seq<Point>, b: seq<Point>, width: Dim, height: Dim)
    ensures VisiblePath(a + b, width, height) == VisiblePath(a, width, height) + VisiblePath(b, width, height)
  {
    if b == [] {
      assert a + b == a;
    } else {
      assert (a + b)[..|a + b| - 1] == a + b[..|b| - 1];
      VisiblePathAppend(a, b[..|b| - 1], width, height);
    }
  }

  /** The path holds exactly the images of the visible points. */
  lemma {:induction false} VisiblePathMembers(pts: seq<Point>, width: Dim, height: Dim)
    ensures |VisiblePath(pts, width, height)| <= |pts|
    ensures forall v :: v in VisiblePath(pts, width, height) <==>
      exists i :: 0 <= i < |pts| && Visible(pts[i]) && v == Norm(pts[i], width, height)
  {
    if pts != [] {
      var init := pts[..|pts| - 1];
      VisiblePathMembers(init, width, height);
      forall i | 0 <= i < |init| ensures init[i] == pts[i] { }
    }
  }

  /** On a fully visible point list nothing is dropped. */
  lemma {:induction false} VisiblePathAllVisible(pts: seq<Point>, width: Dim, height: Dim)
    requires forall i :: 0 <= i < |pts| ==> Visible(pts[i])
    ensures VisiblePath(pts, width, height) == FullPath(pts, width, height)
  {
    if pts != [] {
      var init := pts[..|pts| - 1];
      VisiblePathAllVisible(init, width, height);
      assert pts == init + [pts[|pts| - 1]];
      FullPathAppend(init, [pts[|pts| - 1]], width, height);
    }
  }

  /** On a list with no visible point the path is empty. */
  lemma {:induction false} VisiblePathNoneVisible(pts: seq<Point>, width: Dim, height: Dim)
    requires forall i :: 0 <= i < |pts| ==> !Visible(pts[i])
    ensures VisiblePath(pts, width, height) == []
  {
    if pts != [] {
      VisiblePathNoneVisible(pts[..|pts| - 1], width, height);
    }
  }

  /** One part's filtered path: the single loop of a hand annotation. */
  method FilterPoints(pts: seq<Point>, width: Dim, height: Dim) returns (path: seq<Vec3>)
    ensures path == VisiblePath(pts, width, height)
  {
    path := [];
    for i := 0 to |pts|
      invariant path == VisiblePath(pts[..i], width, height)
    {
      var pt := pts[i];
      if Coord(pt, 0) > 0.0 && Coord(pt, 1) > 0.0 {
        path := path + [Norm(pt, width, height)];
      }
      assert pts[..i + 1][..i] == pts[..i];
    }
    assert pts[..|pts|] == pts;
  }

  /** One part's filtered path across its sub-parts: the nested loop of a
      body annotation. */
  method FilterParts(parts: seq<seq<Point>>, width: Dim, height: Dim) returns (path: seq<Vec3>)
    ensures path == VisiblePath(Flatten(parts), width, height)
  {
    path := [];
    for p := 0 to |parts|
      invariant path == VisiblePath(Flatten(parts[..p]), width, height)
    {
      var part := parts[p];
      assert Flatten(parts[..p]) + part[..0] == Flatten(parts[..p]);
      for i := 0 to |part|
        invariant path == VisiblePath(Flatten(parts[..p]) + part[..i], width, height)
      {
        var pt := part[i];
        if Coord(pt, 0) > 0.0 && Coord(pt, 1) > 0.0 {
          path := path + [Norm(pt, width, height)];
        }
        VisiblePathAppend(Flatten(parts[..p]) + part[..i], [pt], width, height);
        assert Flatten(parts[..p]) + part[..i + 1] == Flatten(parts[..p]) + part[..i] + [pt];
      }
      assert parts[..p + 1][..p] == parts[..p];
      assert part[..|part|] == part;
    }
    assert parts[..|parts|] == parts;
  }

  /** One part's path across its sub-parts with nothing dropped. */
  method NormParts(parts: seq<seq<Point>>, width: Dim, height: Dim) returns (path: seq<Vec3>)
    ensures path == FullPath(Flatten(parts), width, height)
  {
    path := [];
    for p := 0 to |parts|
      invariant path == FullPath(Flatten(parts[..p]), width, height)
    {
      var part := parts[p];
      assert Flatten(parts[..p]) + part[..0] == Flatten(parts[..p]);
      for i := 0 to |part|
        invariant path == FullPath(Flatten(parts[..p]) + part[..i], width, height)
      {
        path := path + [Norm(part[i], width, height)];
        FullPathAppend(Flatten(parts[..p]) + part[..i], [part[i]], width, height);
        assert Flatten(parts[..p]) + part[..i + 1] == Flatten(parts[..p]) + part[..i] + [part[i]];
      }
      assert parts[..p + 1][..p] == parts[..p];
      assert part[..|part|] == part;
    }
    assert parts[..|parts|] == parts;
  }
}

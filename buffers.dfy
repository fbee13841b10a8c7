/**
 * Flattening a face mesh into a vertex position buffer: point i fills the
 * three slots 3i, 3i+1 and 3i+2, each computed by a caller-given formula
 * from point i alone.
 */
module Buffers {
  import opened Human

  /** Formula for slot k (0, 1 or 2) of a point. */
  type SlotFormula = (Point, nat) -> real

  /** The buffer as a whole: slot s holds component s % 3 of point s / 3. */
  function Layout(pts: seq<Point>, slot: SlotFormula): seq<real>
  {
    seq(3 * |pts|, s requires 0 <= s < 3 * |pts| => slot(pts[s / 3], s % 3))
  }

  /** The buffer has three slots per point, and slots 3i, 3i+1 and 3i+2
      are computed from point i and nothing else. */
  lemma LayoutSlots(pts: seq<Point>, slot: SlotFormula, i: nat, k: nat)
    requires i < |pts| && k < 3
    ensures |Layout(pts, slot)| == 3 * |pts|
    ensures Layout(pts, slot)[3 * i + k] == slot(pts[i], k)
  {
    assert (3 * i + k) / 3 == i && (3 * i + k) % 3 == k;
  }

  /** The index loop filling a `Float32Array` of length 3n. */
  method FillPositions(pts: seq<Point>, slot: SlotFormula) returns (buf: seq<real>)
    ensures buf == Layout(pts, slot)
  {
    var positions := new real[3 * |pts|];
    for i := 0 to |pts|
      invariant forall j, k :: 0 <= j < i && 0 <= k < 3 ==> positions[3 * j + k] == slot(pts[j], k)
    {
      positions[3 * i + 0] := slot(pts[i], 0);
      positions[3 * i + 1] := slot(pts[i], 1);
      positions[3 * i + 2] := slot(pts[i], 2);
    }
    buf := positions[..];
    forall s | 0 <= s < |buf| ensures buf[s] == Layout(pts, slot)[s] {
      assert s == 3 * (s / 3) + s % 3;
      assert positions[3 * (s / 3) + s % 3] == slot(pts[s / 3], s % 3);
    }
  }
}

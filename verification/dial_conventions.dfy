/**
 How the value-to-rotation mapping and the drag hook's reading of a rotation
 fit together on the same ring.
 */
module DialConventions {
  import opened Decimal
  import opened GameTypes
  import opened RingRotation
  import opened DragGeometry

  /** The drag hook's dial for a ring: its segment count and 360 over it. */
  function RingDialOf(t: RingType): (d: RingDial)
    ensures d.segmentCount == SegmentCount(t)
    ensures d.anglePerSegment == SegmentWidth(t) as real
  {
    var d := DialFor(SegmentCount(t));
    match t
    case Decade => assert d.anglePerSegment == 40.0; d
    case Year => assert d.anglePerSegment == 36.0; d
    case Month => assert d.anglePerSegment == 30.0; d
  }

  /** An integer rotation of minus i segments, read as a real angle. */
  lemma TurnAsReal(i: int, w: int)
    ensures (-(i * w)) as real == -(i as real * w as real)
  {
    var p := i * w;
    assert p as real == i as real * w as real;
  }

  /** On each ring, turning back i whole segments shows segment (n - i) mod n. */
  lemma IntegerTurnReadsMirror(i: int, t: RingType)
    requires 0 <= i < SegmentCount(t)
    ensures SegmentAtTop((-(i * SegmentWidth(t))) as real, RingDialOf(t)) == (SegmentCount(t) - i) % SegmentCount(t)
  {
    var w := SegmentWidth(t);
    var d := RingDialOf(t);
    TurnAsReal(i, w);
    var back := -(i as real * d.anglePerSegment);
    assert (-(i * w)) as real == back;
    ClockwiseTurnShowsMirrorSegment(i, d);
  }

  /**
   The rotation that aligns an answer, read back by the drag hook, shows the
   mirror segment (n - i) mod n rather than the answer's own index i; only index
   0, and the middle segment of an even ring (year 5, month 6), read back as
   themselves.
   */
  lemma AlignedRotationReadsMirror(t: RingType, answer: string, correctDecade: string)
    requires answer in Segments(t, correctDecade)
    ensures var n, i := SegmentCount(t), IndexOf(Segments(t, correctDecade), answer);
      SegmentAtTop(RotationToAlign(t, answer, correctDecade) as real, RingDialOf(t)) == (n - i) % n
  {
    var i := IndexOf(Segments(t, correctDecade), answer);
    var w := SegmentWidth(t);
    RotationOfListedLabel(t, answer, correctDecade);
    IntegerTurnReadsMirror(i, t);
  }
}

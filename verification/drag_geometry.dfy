/**
 The pure angle arithmetic of the ring-drag hook: which segment of a ring sits
 at 12 o'clock for a rotation, and snapping a rotation to a segment boundary.
 Angles are real numbers of degrees.
 */
module DragGeometry {
  import opened Arith
  import Wrappers

  /** Truncation toward zero, which JavaScript's `%` uses for its quotient. */
  function Trunc(x: real): (k: int)
    ensures 0.0 <= x ==> k as real <= x < k as real + 1.0
    ensures x < 0.0 ==> k as real - 1.0 < x <= k as real
  {
    if x >= 0.0 then x.Floor else -((-x).Floor)
  }

  /** JavaScript's `x % 360`: what is left after removing whole turns; it takes the sign of x. */
  function Rem360(x: real): (r: real)
    ensures -360.0 < r < 360.0
    ensures 0.0 <= x ==> 0.0 <= r
    ensures x <= 0.0 ==> r <= 0.0
    ensures x - r == 360.0 * Trunc(x / 360.0) as real
  {
    x - 360.0 * Trunc(x / 360.0) as real
  }

  /** The Euclidean remainder of x by a full turn: the angle of x within [0, 360). */
  function Mod360(x: real): (a: real)
    ensures 0.0 <= a < 360.0
  {
    x - 360.0 * (x / 360.0).Floor as real
  }

  /**
   The hook's `((rotation % 360) + 360) % 360`: two JavaScript remainders that
   bring any rotation into [0, 360).
   */
  function Normalize(rotation: real): (a: real)
    ensures 0.0 <= a < 360.0
  {
    Rem360(Rem360(rotation) + 360.0)
  }

  /** The normalisation is the Euclidean remainder, for negative rotations too. */
  lemma NormalizeIsMod360(rotation: real)
    ensures Normalize(rotation) == Mod360(rotation)
  {
  }

  /** `Math.round`: the nearest integer, a half rounding up. */
  function Round(x: real): (k: int)
    ensures k as real - 0.5 <= x < k as real + 0.5
  {
    (x + 0.5).Floor
  }

  /**
   What the hook fixes when it is created: the ring's segment count and
   `anglePerSegment`, 360 divided by that count.
   */
  datatype Dial = Dial(segmentCount: nat, anglePerSegment: real)

  /** A dial of at least one segment whose segments make exactly one turn. */
  type RingDial = d: Dial | d.segmentCount > 0 && d.anglePerSegment > 0.0
    && d.anglePerSegment * d.segmentCount as real == 360.0
    witness Dial(1, 360.0)

  /** The dial of an n-segment ring: `anglePerSegment = 360 / segmentCount`. */
  function DialFor(n: nat): (d: RingDial)
    requires n > 0
    ensures d.segmentCount == n
  {
    var w := 360.0 / n as real;
    assert w * n as real == 360.0;
    Dial(n, w)
  }

  /**
   `Math.round(normalizedRotation / anglePerSegment)`: the nearest segment
   boundary, counted in segments from 0. The normalised rotation is written as
   its Euclidean form, which NormalizeIsMod360 shows is the same angle. Within
   half a segment below a full turn it is the segment count itself.
   */
  function NearestBoundary(rotation: real, d: RingDial): (k: int)
    ensures 0 <= k <= d.segmentCount
  {
    RealDivNonNegative(Mod360(rotation), d.anglePerSegment);
    NearTurnBound(Mod360(rotation), d.segmentCount as real, d.anglePerSegment);
    Round(Mod360(rotation) / d.anglePerSegment)
  }

  /** `getSegmentAtTop`: the index of the segment at 12 o'clock. */
  function SegmentAtTop(rotation: real, d: RingDial): (i: int)
    ensures 0 <= i < d.segmentCount
  {
    NearestBoundary(rotation, d) % d.segmentCount
  }

  /** `(nearestSegment * anglePerSegment) % 360`: boundary k's angle, for segments of w degrees, within one turn. */
  function BoundaryAngle(k: int, w: real): real {
    Rem360(k as real * w)
  }

  /** `snapToSegment`: the rotation moved to the nearest segment boundary, within one turn. */
  function SnapToSegment(rotation: real, d: RingDial): (r: real)
    ensures 0.0 <= r < 360.0
  {
    var k := NearestBoundary(rotation, d);
    RealMulNonNegative(k as real, d.anglePerSegment);
    BoundaryAngle(k, d.anglePerSegment)
  }

  /**
   `handleDragEnd`: nothing on a locked ring; otherwise the segment at the top
   after snapping, which is the segment at the top of the unsnapped rotation.
   */
  function DragEnd(rotation: real, d: RingDial, isLocked: bool): (r: Wrappers.Option<int>)
    ensures r.None? <==> isLocked
    ensures r.Some? ==> 0 <= r.value < d.segmentCount && r.value == SegmentAtTop(rotation, d)
  {
    if isLocked then Wrappers.None
    else
      SnapKeepsTopSegment(rotation, d);
      Wrappers.Some(SegmentAtTop(SnapToSegment(rotation, d), d))
  }

  /** Adding whole turns does not change the angle within the turn. */
  lemma Mod360Periodic(rotation: real, k: int)
    ensures Mod360(rotation + 360.0 * k as real) == Mod360(rotation)
  {
    var x := rotation / 360.0;
    assert (rotation + 360.0 * k as real) / 360.0 == x + k as real;
    assert (x + k as real).Floor == x.Floor + k;
  }

  /** An angle already in [0, 360) is its own remainder. */
  lemma Mod360InTurn(a: real)
    requires 0.0 <= a < 360.0
    ensures Mod360(a) == a
  {
    assert (a / 360.0).Floor == 0;
  }

  /** The segment at the top does not change when whole turns are added. */
  lemma SegmentAtTopPeriodic(rotation: real, turned: real, d: RingDial, k: int)
    requires turned == rotation + 360.0 * k as real
    ensures SegmentAtTop(turned, d) == SegmentAtTop(rotation, d)
  {
    Mod360Periodic(rotation, k);
  }

  /** A non-negative angle within the first turn is its own JavaScript remainder. */
  lemma Rem360InTurn(x: real)
    requires 0.0 <= x < 360.0
    ensures Rem360(x) == x
  {
    assert Trunc(x / 360.0) == 0;
  }

  /** A full turn leaves no remainder. */
  lemma Rem360OfTurn()
    ensures Rem360(360.0) == 0.0
  {
    assert Trunc(360.0 / 360.0) == 1;
  }

  /** The segments of a dial make one turn, whichever way round the product is written. */
  lemma DialTurn(d: RingDial)
    ensures d.segmentCount as real * d.anglePerSegment == 360.0
  {
    var turn := d.anglePerSegment * d.segmentCount as real;
    assert d.segmentCount as real * d.anglePerSegment == turn;
  }

  /** Segment j's boundary angle, j times the segment angle, lies within the first turn. */
  lemma BoundaryInTurn(j: int, d: RingDial)
    requires 0 <= j < d.segmentCount
    ensures 0.0 <= j as real * d.anglePerSegment < 360.0
  {
    PartialTurnReal(j as real, d.segmentCount as real, d.anglePerSegment);
  }

  /** Segment j's boundary angle shows segment j at the top. */
  lemma TopOfBoundary(j: int, d: RingDial)
    requires 0 <= j < d.segmentCount
    ensures SegmentAtTop(j as real * d.anglePerSegment, d) == j
  {
    BoundaryInTurn(j, d);
    Mod360InTurn(j as real * d.anglePerSegment);
    RealDivOfMultiple(Mod360(j as real * d.anglePerSegment), j as real, d.anglePerSegment);
    assert Round(j as real) == j;
  }

  /** Boundaries that make a full turn leave no JavaScript remainder. */
  lemma SnapOfFullTurn(n: int, w: real)
    requires n as real * w == 360.0
    ensures BoundaryAngle(n, w) == 0.0
  {
    Rem360OfTurn();
  }

  /** A boundary inside the first turn is its own JavaScript remainder. */
  lemma SnapOfInnerBoundary(k: int, w: real)
    requires 0.0 <= k as real * w < 360.0
    ensures BoundaryAngle(k, w) == k as real * w
  {
    Rem360InTurn(k as real * w);
  }

  /** The remainder of boundary k, for k up to a full turn, is boundary k mod n. */
  lemma SnapOfBoundary(k: int, d: RingDial)
    requires 0 <= k <= d.segmentCount
    ensures BoundaryAngle(k, d.anglePerSegment) == (k % d.segmentCount) as real * d.anglePerSegment
  {
    SnapOfBoundaryOn(k, d.segmentCount, d.anglePerSegment);
  }

  /** SnapOfBoundary for n segments of w degrees each, stated without the dial. */
  lemma SnapOfBoundaryOn(k: int, n: int, w: real)
    requires 0 <= k <= n && w > 0.0 && w * n as real == 360.0
    ensures BoundaryAngle(k, w) == (k % n) as real * w
  {
    if k == n {
      var turn := w * n as real;
      assert n as real * w == turn;
      SnapOfFullTurn(k, w);
      assert k % n == 0;
      ZeroTimes(w);
    } else {
      assert k % n == k;
      PartialTurnReal(k as real, n as real, w);
      SnapOfInnerBoundary(k, w);
    }
  }

  /** Zero segments make no angle. */
  lemma ZeroTimes(w: real)
    ensures 0 as real * w == 0.0
  {
  }

  /** Snapping lands on the boundary of the segment that is at the top. */
  lemma SnapIsTopBoundary(rotation: real, d: RingDial)
    ensures SnapToSegment(rotation, d) == SegmentAtTop(rotation, d) as real * d.anglePerSegment
  {
    SnapOfBoundary(NearestBoundary(rotation, d), d);
  }

  /** Snapping twice is snapping once. */
  lemma SnapIdempotent(rotation: real, d: RingDial)
    ensures SnapToSegment(SnapToSegment(rotation, d), d) == SnapToSegment(rotation, d)
  {
    SnapIsTopBoundary(rotation, d);
    SnapIsTopBoundary(SnapToSegment(rotation, d), d);
    TopOfBoundary(SegmentAtTop(rotation, d), d);
  }

  /** Snapping before reading the top segment, as the drag-end handler does, changes nothing. */
  lemma SnapKeepsTopSegment(rotation: real, d: RingDial)
    ensures SegmentAtTop(SnapToSegment(rotation, d), d) == SegmentAtTop(rotation, d)
  {
    SnapIsTopBoundary(rotation, d);
    TopOfBoundary(SegmentAtTop(rotation, d), d);
  }

  /** Rounding sends a half up. */
  lemma RoundHalfUp(k: int)
    ensures Round(k as real + 0.5) == k + 1
    ensures Round(k as real - 0.5) == k
  {
  }

  /** An angle less than half a segment short of a full turn shows segment 0. */
  lemma NearFullTurnIsSegmentZero(rotation: real, d: RingDial)
    ensures Normalize(rotation) >= 360.0 - d.anglePerSegment / 2.0 ==> SegmentAtTop(rotation, d) == 0
  {
    NormalizeIsMod360(rotation);
    if Mod360(rotation) >= 360.0 - d.anglePerSegment / 2.0 {
      RoundNearTurn(Mod360(rotation), d.segmentCount, d.anglePerSegment);
      assert NearestBoundary(rotation, d) == d.segmentCount;
    }
  }

  /** An angle within half a segment below a full turn rounds to the full count of segments. */
  lemma RoundNearTurn(a: real, n: int, w: real)
    requires w > 0.0 && w * n as real == 360.0
    requires 360.0 - w / 2.0 <= a < 360.0
    ensures Round(a / w) == n
  {
    NearTurnQuotient(a, n as real, w);
  }

  /** The unturned dial shows segment 0. */
  lemma TopOfZero(d: RingDial)
    ensures SegmentAtTop(0.0, d) == 0
  {
    Mod360InTurn(0.0);
  }

  /** Turning back i segments is turning forward j = n - i segments and back one turn. */
  lemma MirrorAngle(i: int, j: int, d: RingDial)
    requires j == d.segmentCount - i
    ensures -(i as real * d.anglePerSegment) == j as real * d.anglePerSegment + 360.0 * (-1) as real
  {
    MirrorTurn(i as real, j as real, d.segmentCount as real, d.anglePerSegment);
  }

  /** A clockwise turn by 0 < i < n segments shows segment n - i. */
  lemma ClockwiseTurnByPart(i: int, d: RingDial)
    requires 0 < i < d.segmentCount
    ensures SegmentAtTop(-(i as real * d.anglePerSegment), d) == d.segmentCount - i
  {
    var j := d.segmentCount - i;
    MirrorAngle(i, j, d);
    SegmentAtTopPeriodic(j as real * d.anglePerSegment, -(i as real * d.anglePerSegment), d, -1);
    TopOfBoundary(j, d);
  }

  /**
   A clockwise turn by i segments, the rotation the value-to-rotation mapping
   produces, shows segment (n - i) mod n at the top, not segment i: the two
   modules count segments in opposite directions.
   */
  lemma ClockwiseTurnShowsMirrorSegment(i: int, d: RingDial)
    requires 0 <= i < d.segmentCount
    ensures SegmentAtTop(-(i as real * d.anglePerSegment), d) == (d.segmentCount - i) % d.segmentCount
  {
    if i == 0 {
      ZeroTimes(d.anglePerSegment);
      TopOfZero(d);
      assert (d.segmentCount - i) % d.segmentCount == 0;
    } else {
      ClockwiseTurnByPart(i, d);
    }
  }
}

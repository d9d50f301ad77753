/**
 The fixed geometry of the dial, in SVG user units: a square canvas, three
 concentric rings of equal stroke width and a centre circle.
 */
module DialDimensions {
  import opened GameTypes

  const ViewBoxWidth: int := 400
  const ViewBoxHeight: int := 400
  const CenterX: int := 200
  const CenterY: int := 200

  /** Gap between the canvas edge and the outermost ring. */
  const OuterMargin: int := 10
  /** Gap between neighbouring rings, and between the innermost ring and the centre circle. */
  const RingGap: int := 10
  const RingStrokeWidth: int := 40

  const CenterCircleRadius: int := 40

  /** `getRingRadius`: the radius of a ring's stroke centre line. */
  function RingRadius(t: RingType): (radius: int)
    ensures radius > RingStrokeWidth / 2
    ensures radius + RingStrokeWidth / 2 + OuterMargin + (RingStrokeWidth + RingGap) * RingOrder(t) == CenterX
  {
    match t
    case Decade => 170
    case Year => 120
    case Month => 70
  }

  /** `getRingOuterEdge`: the radius of a ring's outer edge. */
  function RingOuterEdge(t: RingType): (edge: int)
    ensures edge > RingRadius(t)
  {
    RingRadius(t) + RingStrokeWidth / 2
  }

  /** `getRingInnerEdge`: the radius of a ring's inner edge. */
  function RingInnerEdge(t: RingType): (edge: int)
    ensures 0 < edge < RingRadius(t)
  {
    RingRadius(t) - RingStrokeWidth / 2
  }

  /** Rings later in the solving order sit further in, without overlapping. */
  lemma RingsNestInward(t: RingType, u: RingType)
    requires RingOrder(t) < RingOrder(u)
    ensures RingOuterEdge(u) < RingInnerEdge(t)
  {
  }

  /** Every ring is exactly one stroke wide, centred on its radius. */
  lemma RingIsOneStrokeWide(t: RingType)
    ensures RingOuterEdge(t) - RingInnerEdge(t) == RingStrokeWidth
    ensures RingOuterEdge(t) + RingInnerEdge(t) == 2 * RingRadius(t)
  {
  }

  /**
   The layout the dimensions are chosen for: the canvas centre is its middle,
   the outermost ring stops one margin short of the edge, neighbouring rings are
   one gap apart, and the innermost ring is one gap from the centre circle.
   */
  lemma DialLayout()
    ensures CenterX * 2 == ViewBoxWidth && CenterY * 2 == ViewBoxHeight
    ensures RingOuterEdge(Decade) + OuterMargin == CenterX
    ensures RingOuterEdge(Decade) + OuterMargin == CenterY
    ensures forall t, u :: RingOrder(u) == RingOrder(t) + 1 ==> RingInnerEdge(t) - RingOuterEdge(u) == RingGap
    ensures RingInnerEdge(Month) - CenterCircleRadius == RingGap
  {
  }
}

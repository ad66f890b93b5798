/** What the five tools share: the `picked_points` list, the reference
    handed to the point picker, the preview guard, the line tools' status
    text and the nil-guarded face count. The code is the same in every tool
    that has it. */
module Picking {
  import opened Options
  import opened Geometry
  import opened Host

  /** A handler's result: the next state, what it asked the host to create
      (an edge's points, a sphere) and what it showed the user. */
  datatype Reaction<S, C> = Reaction(next: S, commit: Option<C>, feedback: Feedback)

  /** `picked_points`: the first point if picked, then the mouse point if
      valid. */
  function PickedPoints(first: InputPoint, mouse: InputPoint): (pts: seq<Point>)
    ensures |pts| == (if first.valid then 1 else 0) + (if mouse.valid then 1 else 0)
    ensures |pts| <= 2
    ensures first.valid ==> pts[0] == first.position
    ensures mouse.valid ==> pts[|pts| - 1] == mouse.position
    ensures forall p :: p in pts ==> (first.valid && p == first.position) || (mouse.valid && p == mouse.position)
  {
    (if first.valid then [first.position] else []) + (if mouse.valid then [mouse.position] else [])
  }

  /** The reference InputPoint `onMouseMove` passes to `pick`: the first
      point exactly when one is picked. */
  function PickReference(first: InputPoint): (ref: Option<InputPoint>)
    ensures ref.Some? <==> first.valid
    ensures ref.Some? ==> ref.value == first
  {
    if first.valid then Some(first) else None
  }

  /** `draw_preview`: a line is drawn only when there are exactly two picked
      points, that is from the first point to a valid mouse point. */
  function PreviewLine(first: InputPoint, mouse: InputPoint): (line: Option<(Point, Point)>)
    ensures line.Some? <==> first.valid && mouse.valid
    ensures line.Some? ==> line.value == (first.position, mouse.position)
  {
    var pts := PickedPoints(first, mouse);
    if |pts| == 2 then Some((pts[0], pts[1])) else None
  }

  /** `enableVCB?` of the inference-lock line tool, the sphere tool and the
      move tool: the measurement bar takes typed values once the first point
      (the start point, the centre) is picked. */
  function VcbEnabled(first: InputPoint): (enabled: bool)
    ensures enabled <==> first.valid
  {
    first.valid
  }

  /** The status text of the line tools' `update_ui`. */
  function LineStatusText(first: InputPoint): (text: string)
    ensures text == "Select end point." <==> first.valid
    ensures !first.valid ==> text == "Select start point."
  {
    if first.valid then "Select end point." else "Select start point."
  }

  /** `edge.find_faces || 0`: the host reports no new faces as nil. */
  function CoercedFaceCount(found: Option<nat>): (n: nat)
    ensures found.Some? ==> n == found.value
    ensures found.None? ==> n == 0
  {
    found.GetOr(0)
  }
}

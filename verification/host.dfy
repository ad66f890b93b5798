/** Host objects the tools hold or are handed, reduced to their observable
    state. */
module Host {
  import opened Options
  import opened Geometry

  /** An `InputPoint`: whether it resolved to a point, and its position. */
  datatype InputPoint = InputPoint(valid: bool, position: Point)

  /** `InputPoint.new`: not yet picked. */
  const NoPoint := InputPoint(false, Origin)

  /** `InputPoint.new(point)`: fixed at a given position. */
  function Fixed(p: Point): InputPoint {
    InputPoint(true, p)
  }

  /** `input_point.clear`: no longer valid. */
  function Cleared(ip: InputPoint): InputPoint {
    ip.(valid := false)
  }

  /** The position when valid, as the inference-lock helper reads it. */
  function Sampled(ip: InputPoint): Option<Point> {
    if ip.valid then Some(ip.position) else None
  }

  /** `input_point.pick(view, x, y, reference)` at the current mouse position:
      the host picks a point, given the optional reference InputPoint. */
  type Picker = Option<InputPoint> -> InputPoint

  /** The model's axes, `view.model.axes`. */
  datatype Axes = Axes(xAxis: Vector, yAxis: Vector, zAxis: Vector)

  /** What a handler shows the user besides the viewport, or that it ended
      by raising a Ruby exception before changing any state. */
  datatype Feedback = Quiet | MessageBox(text: string) | BeepTooltip(tooltip: string) | Raised
}

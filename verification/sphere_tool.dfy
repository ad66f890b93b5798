/** The `SphereTool`: the first click picks the centre, the second click (or
    a typed radius) creates a sphere and always resets; there is no chaining.
    The sphere the host builds is determined by the centre and the mouse
    point: its radius is their distance. */
module SphereTool {
  import opened Options
  import opened Geometry
  import opened Host
  import opened Picking

  /** `first` is the picked centre. */
  datatype State = State(first: InputPoint, mouse: InputPoint)

  /** The host's `Point3d#distance`. */
  type Distance = (Point, Point) -> real

  /** What `create_sphere` builds: a sphere about `centre` through `rim`. */
  datatype Sphere = Sphere(centre: Point, rim: Point)

  /** The measurement bar's value: a length, or the empty string. */
  datatype VcbValue = Blank | Shown(length: real)

  datatype Ui = Ui(status: string, vcbLabel: string, vcbValue: VcbValue)

  function Activate(): (s: State)
    ensures !s.first.valid && !s.mouse.valid
  {
    State(NoPoint, NoPoint)
  }

  /** `reset_tool`: forgets the centre. */
  function ResetTool(s: State): (r: State)
    ensures !r.first.valid && r.mouse == s.mouse
  {
    s.(first := Cleared(s.first))
  }

  function OnCancel(s: State, reason: int): (r: State)
    ensures !r.first.valid && r.mouse == s.mouse
  {
    ResetTool(s)
  }

  function OnMouseMove(s: State, pick: Picker): (r: State)
    ensures r.first == s.first
    ensures r.mouse == pick(if s.first.valid then Some(s.first) else None)
  {
    s.(mouse := pick(PickReference(s.first)))
  }

  /** `picked_distance`: centre to mouse point when both are valid, else 0. */
  function PickedDistance(s: State, distance: Distance): (d: real)
    ensures !(s.first.valid && s.mouse.valid) ==> d == 0.0
    ensures s.first.valid && s.mouse.valid ==> d == distance(s.first.position, s.mouse.position)
  {
    if s.first.valid && s.mouse.valid then distance(s.first.position, s.mouse.position) else 0.0
  }

  /** `update_ui`: the label is always "Radius"; the value is the picked
      distance once a centre is picked and empty before. */
  function UpdateUi(s: State, distance: Distance): (ui: Ui)
    ensures ui.vcbLabel == "Radius"
    ensures ui.vcbValue.Blank? <==> !s.first.valid
    ensures s.first.valid ==> ui.vcbValue == Shown(PickedDistance(s, distance))
    ensures ui.status == "Select centre of sphere" <==> !s.first.valid
    ensures s.first.valid ==> ui.status == "Select the radius of sphere or enter value"
  {
    if s.first.valid then
      Ui("Select the radius of sphere or enter value", "Radius", Shown(PickedDistance(s, distance)))
    else
      Ui("Select centre of sphere", "Radius", Blank)
  }

  /** `create_sphere`: a sphere about the centre through the mouse point, then
      a reset. Without both points `picked_points` has no second entry and
      measuring the radius raises before anything changes. */
  function CreateSphere(s: State): (r: Reaction<State, Sphere>)
    ensures s.first.valid && s.mouse.valid ==>
      r == Reaction(ResetTool(s), Some(Sphere(s.first.position, s.mouse.position)), Quiet)
    ensures !(s.first.valid && s.mouse.valid) ==> r == Reaction(s, None, Raised)
  {
    var pts := PickedPoints(s.first, s.mouse);
    if |pts| < 2 then Reaction(s, None, Raised)
    else Reaction(ResetTool(s), Some(Sphere(pts[0], pts[1])), Quiet)
  }

  /** `onLButtonDown`: without a centre the mouse point becomes the centre;
      with one a sphere is created and the tool resets. */
  function OnLButtonDown(s: State): (r: Reaction<State, Sphere>)
    ensures !s.first.valid ==> r == Reaction(s.(first := s.mouse), None, Quiet)
    ensures s.first.valid ==> r == CreateSphere(s)
    ensures r.commit.Some? <==> s.first.valid && s.mouse.valid
    ensures r.commit.Some? ==> r.commit.value == Sphere(s.first.position, s.mouse.position)
    ensures s.first.valid ==> !r.next.first.valid || r.feedback == Raised
  {
    if s.first.valid then CreateSphere(s) else Reaction(s.(first := s.mouse), None, Quiet)
  }

  /** `onUserText`, with `parsed` the result of `text.to_l` (None when it
      raises). Ignored unless a centre is picked and the mouse point is
      valid. A failed parse or a zero length beeps with an error tooltip and
      changes nothing. A mouse point on the centre leaves no direction to
      scale to the typed length, and the handler raises. Otherwise the
      sphere is created from the centre and the mouse point: the typed
      length selects nothing. */
  function OnUserText(s: State, parsed: Option<real>): (r: Reaction<State, Sphere>)
    ensures !(s.first.valid && s.mouse.valid) ==> r == Reaction(s, None, Quiet)
    ensures s.first.valid && s.mouse.valid && (parsed.None? || parsed == Some(0.0)) ==>
      r == Reaction(s, None, BeepTooltip("Invalid length entered."))
    ensures s.first.valid && s.mouse.valid && parsed.Some? && parsed.value != 0.0 && s.mouse.position == s.first.position ==>
      r == Reaction(s, None, Raised)
    ensures r.commit.Some? <==>
      s.first.valid && s.mouse.valid && parsed.Some? && parsed.value != 0.0 && s.mouse.position != s.first.position
    ensures r.commit.Some? ==> r.commit.value == Sphere(s.first.position, s.mouse.position) && !r.next.first.valid
  {
    if !(s.first.valid && s.mouse.valid) then Reaction(s, None, Quiet)
    else if parsed.None? || parsed.value == 0.0 then Reaction(s, None, BeepTooltip("Invalid length entered."))
    else if VectorTo(s.first.position, s.mouse.position) == ZeroVector then Reaction(s, None, Raised)
    else CreateSphere(s)
  }

  /** The typed radius is computed into a tangent point that is never used:
      any two accepted lengths create the same sphere, the one a click at the
      mouse point creates. */
  lemma TypedRadiusIgnored(s: State, a: real, b: real)
    requires OnUserText(s, Some(a)).commit.Some?
    requires b != 0.0
    ensures OnUserText(s, Some(b)).commit == OnUserText(s, Some(a)).commit
    ensures OnUserText(s, Some(a)).commit == OnLButtonDown(s).commit
  {
  }

  /** `enableVCB?` keeps the measurement bar disabled until a centre is
      picked, and without one the handler ignores typed text silently. */
  lemma TextWhileVcbDisabled(s: State, parsed: Option<real>)
    requires !VcbEnabled(s.first)
    ensures OnUserText(s, parsed) == Reaction(s, None, Quiet)
  {
  }

  /** Picking a centre and then a rim point: while the rim is hovered the
      measurement bar shows the host's distance from the centre, the second
      click builds the sphere about that centre through that point, so its
      radius is the value shown, and the tool is back at its first stage with
      an empty measurement bar. */
  lemma TwoClicksCreateSphere(s: State, centrePick: Picker, rimPick: Picker, distance: Distance)
    requires !s.first.valid
    ensures var hovered := OnMouseMove(s, centrePick);
      var centred := OnLButtonDown(hovered).next;
      var aimed := OnMouseMove(centred, rimPick);
      var created := OnLButtonDown(aimed);
      && UpdateUi(hovered, distance) == Ui("Select centre of sphere", "Radius", Blank)
      && (hovered.mouse.valid ==> aimed.mouse == rimPick(Some(hovered.mouse)))
      && (hovered.mouse.valid && aimed.mouse.valid ==>
            && UpdateUi(aimed, distance).vcbValue == Shown(distance(hovered.mouse.position, aimed.mouse.position))
            && created.commit == Some(Sphere(hovered.mouse.position, aimed.mouse.position))
            && UpdateUi(created.next, distance) == Ui("Select centre of sphere", "Radius", Blank))
  {
  }

  /** After activation or a cancel the tool starts over: moving picks with
      no reference, typed text is ignored, the prompt asks for a centre with
      an empty measurement bar, and the next click draws nothing and takes
      the picked point as centre. */
  lemma StartOverAfterCancel(s: State, reason: int, pick: Picker, parsed: Option<real>, distance: Distance)
    ensures var restarted := OnMouseMove(OnCancel(s, reason), pick);
      && restarted.mouse == pick(None)
      && OnUserText(restarted, parsed) == Reaction(restarted, None, Quiet)
      && UpdateUi(restarted, distance) == Ui("Select centre of sphere", "Radius", Blank)
      && OnLButtonDown(restarted).commit.None?
      && OnLButtonDown(restarted).next.first == pick(None)
    ensures var started := OnMouseMove(Activate(), pick);
      && OnUserText(started, parsed) == Reaction(started, None, Quiet)
      && UpdateUi(started, distance) == Ui("Select centre of sphere", "Radius", Blank)
      && OnLButtonDown(started).commit.None?
      && OnLButtonDown(started).next.first == pick(None)
  {
  }

  /** Every sphere created leaves the tool without a centre: no chaining. */
  lemma NoChaining(s: State, parsed: Option<real>)
    ensures OnLButtonDown(s).commit.Some? ==> !OnLButtonDown(s).next.first.valid
    ensures OnUserText(s, parsed).commit.Some? ==> !OnUserText(s, parsed).next.first.valid
  {
  }
}

/** The `LineTool` of the inference-lock example: the press-drag-release
    line tool with Shift and arrow-key inference locking and typed lengths.
    Every edge drawn, and every reset, drops the inference lock. */
module InferenceLockTool {
  import opened Options
  import opened Geometry
  import opened Host
  import opened Picking
  import IL = InferenceLock
  import PressDragTool

  datatype State = State(first: InputPoint, mouse: InputPoint, mouseDown: ScreenPoint, lock: IL.LockState)

  /** The helper's lock is consistent with the view, and a held axis lock is
      anchored at the picked first point. */
  predicate Inv(s: State) {
    && IL.Inv(s.lock)
    && (s.lock.axisLock.Some? ==> s.first.valid && s.lock.axisLock.value.anchor == s.first.position)
  }

  /** `activate`: fresh InputPoints, a fresh helper, and the press position
      at the screen origin, from which a release before any press is
      measured. */
  function Activate(): (s: State)
    ensures !s.first.valid && !s.mouse.valid
    ensures s.mouseDown == ScreenPoint(0, 0)
    ensures s.lock == IL.Released
    ensures Inv(s)
  {
    State(NoPoint, NoPoint, ScreenPoint(0, 0), IL.Released)
  }

  /** `deactivate`: always unlocks inference. */
  function Deactivate(s: State): (r: State)
    ensures r.lock.axisLock.None? && r.lock.view == IL.Unlocked
    ensures r.first == s.first && r.mouse == s.mouse && r.mouseDown == s.mouseDown
    ensures Inv(s) ==> Inv(r)
  {
    s.(lock := IL.Unlock(s.lock))
  }

  /** `reset_tool`: no first point and no inference lock. */
  function ResetTool(s: State): (r: State)
    ensures !r.first.valid && r.lock == IL.Released
    ensures r.mouse == s.mouse && r.mouseDown == s.mouseDown
    ensures Inv(r)
  {
    s.(first := Cleared(s.first), lock := IL.Unlock(s.lock))
  }

  /** `onCancel`: resets whatever the reason. */
  function OnCancel(s: State, reason: int): (r: State)
    ensures !r.first.valid && r.lock == IL.Released
    ensures r.mouse == s.mouse && r.mouseDown == s.mouseDown
    ensures Inv(r)
  {
    ResetTool(s)
  }

  /** `pick_mouse_position`: re-picks the mouse point, relative to the first
      point when one is picked. */
  function RePick(s: State, pick: Picker): (r: State)
    ensures r.first == s.first && r.lock == s.lock && r.mouseDown == s.mouseDown
    ensures r.mouse == pick(if s.first.valid then Some(s.first) else None)
    ensures Inv(s) ==> Inv(r)
  {
    s.(mouse := pick(PickReference(s.first)))
  }

  function OnMouseMove(s: State, pick: Picker): (r: State)
    ensures r.first == s.first && r.lock == s.lock && r.mouseDown == s.mouseDown
    ensures r.mouse == pick(if s.first.valid then Some(s.first) else None)
    ensures Inv(s) ==> Inv(r)
  {
    RePick(s, pick)
  }

  /** `onKeyDown`: the helper sees the mouse point as active point and the
      first point as reference; the mouse point is then re-picked. */
  function OnKeyDown(s: State, key: IL.Key, axes: Axes, pick: Picker): (r: State)
    ensures r.first == s.first && r.mouseDown == s.mouseDown
    ensures r.lock == IL.OnKeyDown(s.lock, key, axes, Sampled(s.mouse), Sampled(s.first))
    ensures r.mouse == pick(if s.first.valid then Some(s.first) else None)
    ensures !s.first.valid && key != IL.ConstrainKey ==> r.lock == s.lock
    ensures Inv(s) ==> Inv(r)
  {
    RePick(s.(lock := IL.OnKeyDown(s.lock, key, axes, Sampled(s.mouse), Sampled(s.first))), pick)
  }

  /** `onKeyUp`. */
  function OnKeyUp(s: State, key: IL.Key, pick: Picker): (r: State)
    ensures r.first == s.first && r.mouseDown == s.mouseDown
    ensures r.lock == IL.OnKeyUp(s.lock, key)
    ensures r.lock.axisLock == s.lock.axisLock
    ensures r.mouse == pick(if s.first.valid then Some(s.first) else None)
    ensures key != IL.ConstrainKey ==> r.lock == s.lock
    ensures Inv(s) ==> Inv(r)
  {
    RePick(s.(lock := IL.OnKeyUp(s.lock, key)), pick)
  }

  /** `create_edge`: an edge through the picked points, the nil-guarded face
      count, and the inference lock dropped whatever that count is. */
  function CreateEdge(s: State, found: Option<nat>): (r: (State, seq<Point>, nat))
    ensures r.0 == s.(lock := IL.Released)
    ensures r.1 == PickedPoints(s.first, s.mouse)
    ensures r.2 == found.GetOr(0)
  {
    (s.(lock := IL.Unlock(s.lock)), PickedPoints(s.first, s.mouse), CoercedFaceCount(found))
  }

  /** `onLButtonDown`: records the press; with a first point, draws an edge
      and resets when it closed a face, otherwise chains from the mouse
      point. Without a first point no edge is drawn and the lock is kept. */
  function OnLButtonDown(s: State, x: int, y: int, found: Option<nat>): (r: Reaction<State, seq<Point>>)
    ensures r.next.mouseDown == ScreenPoint(x, y) && r.next.mouse == s.mouse && r.feedback == Quiet
    ensures r.commit.Some? <==> s.first.valid
    ensures r.commit.Some? ==> r.commit.value == PickedPoints(s.first, s.mouse) && r.next.lock == IL.Released
    ensures s.first.valid && found.GetOr(0) > 0 ==> !r.next.first.valid
    ensures !(s.first.valid && found.GetOr(0) > 0) ==> r.next.first == s.mouse
    ensures !s.first.valid ==> r.next.lock == s.lock
    ensures Inv(s) ==> Inv(r.next)
  {
    var pressed := s.(mouseDown := ScreenPoint(x, y));
    if pressed.first.valid then
      var (drawn, edge, faces) := CreateEdge(pressed, found);
      var next := if faces > 0 then ResetTool(drawn) else drawn.(first := drawn.mouse);
      Reaction(next, Some(edge), Quiet)
    else
      Reaction(pressed.(first := pressed.mouse), None, Quiet)
  }

  /** `onLButtonUp`: beyond the threshold an edge is drawn and the tool
      resets; at or within it nothing changes. */
  function OnLButtonUp(s: State, x: int, y: int): (r: Reaction<State, seq<Point>>)
    ensures IsDrag(s.mouseDown, ScreenPoint(x, y)) ==>
      && r.commit == Some(PickedPoints(s.first, s.mouse)) && r.feedback == Quiet
      && r.next == s.(first := r.next.first, lock := IL.Released)
      && !r.next.first.valid
    ensures !IsDrag(s.mouseDown, ScreenPoint(x, y)) ==> r.next == s && r.commit.None?
    ensures Inv(s) ==> Inv(r.next)
  {
    if IsDrag(s.mouseDown, ScreenPoint(x, y)) then
      var (drawn, edge, _) := CreateEdge(s, None);
      Reaction(ResetTool(drawn), Some(edge), Quiet)
    else
      Reaction(s, None, Quiet)
  }

  /** `onUserText`. `parsed` is `text.to_l`, None when it raises;
      `measured` is the host's length of the direction from the first to the
      mouse point, of which the handler needs only that it is positive for a
      non-zero direction (`MeasuresLength` promises more). An unparsable text shows a message and changes nothing.
      Fewer than two picked points, or two picked points at the same
      position (a zero direction, which `offset` refuses), make the handler
      raise before it changes anything. Otherwise the end point is placed the
      typed length along that direction, an edge is drawn to it, and the tool
      resets if faces were closed and chains from the end point if not. */
  function OnUserText(s: State, parsed: Option<real>, found: Option<nat>, measured: real): (r: Reaction<State, seq<Point>>)
    requires s.first.valid && s.mouse.valid && s.first.position != s.mouse.position ==> measured > 0.0
    ensures parsed.None? ==> r == Reaction(s, None, MessageBox("Invalid length"))
    ensures parsed.Some? && !(s.first.valid && s.mouse.valid) ==> r == Reaction(s, None, Raised)
    ensures parsed.Some? && s.first.valid && s.mouse.valid && s.first.position == s.mouse.position ==>
      r == Reaction(s, None, Raised)
    ensures r.commit.Some? <==> parsed.Some? && s.first.valid && s.mouse.valid && s.first.position != s.mouse.position
    ensures r.commit.Some? ==>
      var end := PointAlong(s.first.position, s.mouse.position, parsed.value, measured);
      && r.commit.value == [s.first.position, end]
      && r.next.mouse == Fixed(end)
      && r.next.mouseDown == s.mouseDown
      && r.next.lock == IL.Released
      && r.feedback == Quiet
      && (!r.next.first.valid <==> found.GetOr(0) > 0)
      && (r.next.first.valid ==> r.next.first == Fixed(end))
    ensures Inv(s) ==> Inv(r.next)
  {
    if parsed.None? then Reaction(s, None, MessageBox("Invalid length"))
    else
      var pts := PickedPoints(s.first, s.mouse);
      if |pts| < 2 || pts[0] == pts[1] then Reaction(s, None, Raised)
      else
        DistinctPointsNonZero(pts[0], pts[1]);
        var end := PointAlong(pts[0], pts[1], parsed.value, measured);
        var moved := s.(mouse := Fixed(end));
        var (drawn, edge, faces) := CreateEdge(moved, found);
        assert edge == [s.first.position, end];
        var next := if faces > 0 then ResetTool(drawn) else drawn.(first := drawn.mouse);
        Reaction(next, Some(edge), Quiet)
  }

  /** Typing the length the mouse already measures draws the same edge a
      click would. */
  lemma TypedMeasuredLengthActsAsClick(s: State, found: Option<nat>, measured: real)
    requires s.first.valid && s.mouse.valid && s.first.position != s.mouse.position
    requires measured > 0.0 && IsLength(VectorTo(s.first.position, s.mouse.position), measured)
    ensures OnUserText(s, Some(measured), found, measured).commit == OnLButtonDown(s, 0, 0, found).commit
  {
  }

  /** The point a typed length places lies on the line through the picked
      points, on the mouse point's side for a non-negative length and on the
      other side for a non-positive one, at the
      typed distance from the first point. */
  lemma TypedLengthFollowsMouseDirection(s: State, len: real, found: Option<nat>, measured: real)
    requires s.first.valid && s.mouse.valid && s.first.position != s.mouse.position
    requires measured > 0.0 && IsLength(VectorTo(s.first.position, s.mouse.position), measured)
    ensures var e := OnUserText(s, Some(len), found, measured).commit.value[1];
      && Cross(VectorTo(s.first.position, e), VectorTo(s.first.position, s.mouse.position)) == ZeroVector
      && (len >= 0.0 ==> Dot(VectorTo(s.first.position, e), VectorTo(s.first.position, s.mouse.position)) >= 0.0)
      && (len <= 0.0 ==> Dot(VectorTo(s.first.position, e), VectorTo(s.first.position, s.mouse.position)) <= 0.0)
      && IsLength(VectorTo(s.first.position, e), if len >= 0.0 then len else -len)
  {
    var end := PointAlong(s.first.position, s.mouse.position, len, measured);
    assert OnUserText(s, Some(len), found, measured).commit.value[1] == end;
    PointAlongOnRay(s.first.position, s.mouse.position, len, measured);
  }

  /** Apart from the inference lock, pressing and releasing do what they do
      in the press-drag-release tool: the same edges, and the same first,
      mouse and press positions afterwards. */
  lemma ButtonsAgreeWithPressDragTool(s: State, x: int, y: int, found: Option<nat>)
    ensures var here := OnLButtonDown(s, x, y, found);
      var there := PressDragTool.OnLButtonDown(PressDragTool.State(s.first, s.mouse, s.mouseDown), x, y, found);
      && here.commit == there.commit
      && PressDragTool.State(here.next.first, here.next.mouse, here.next.mouseDown) == there.next
    ensures var here := OnLButtonUp(s, x, y);
      var there := PressDragTool.OnLButtonUp(PressDragTool.State(s.first, s.mouse, s.mouseDown), x, y);
      && here.commit == there.commit
      && PressDragTool.State(here.next.first, here.next.mouse, here.next.mouseDown) == there.next
  {
  }

  /** `enableVCB?` keeps the measurement bar disabled until a first point
      is picked, and without one the handler could not place a point anyway:
      it draws nothing and changes nothing, showing a message for unparsable
      text and raising for a length. */
  lemma TextWhileVcbDisabled(s: State, parsed: Option<real>, found: Option<nat>, measured: real)
    requires !VcbEnabled(s.first)
    ensures OnUserText(s, parsed, found, measured).commit.None?
    ensures OnUserText(s, parsed, found, measured).next == s
    ensures parsed.Some? ==> OnUserText(s, parsed, found, measured).feedback == Raised
  {
  }

  datatype Event =
    | MouseMove(pick: Picker)
    | KeyDown(key: IL.Key, downPick: Picker)
    | KeyUp(key: IL.Key, upPick: Picker)
    | Press(x: int, y: int, pressFound: Option<nat>)
    | Release(rx: int, ry: int)
    | Text(parsed: Option<real>, textFound: Option<nat>, length: Vector -> real)
    | Cancel(reason: int)
    | Leave

  /** A text event's length is the host's measurement. */
  ghost predicate Measured(e: Event) {
    e.Text? ==> HostMeasures(e.length)
  }

  function Apply(s: State, e: Event, axes: Axes): (r: State)
    requires Measured(e)
    ensures Inv(s) ==> Inv(r)
  {
    match e
    case MouseMove(pick) => OnMouseMove(s, pick)
    case KeyDown(key, pick) => OnKeyDown(s, key, axes, pick)
    case KeyUp(key, pick) => OnKeyUp(s, key, pick)
    case Press(x, y, found) => OnLButtonDown(s, x, y, found).next
    case Release(x, y) => OnLButtonUp(s, x, y).next
    case Text(parsed, found, length) =>
      OnUserText(s, parsed, found, length(VectorTo(s.first.position, s.mouse.position))).next
    case Cancel(reason) => OnCancel(s, reason)
    case Leave => Deactivate(s)
  }

  function Run(s: State, es: seq<Event>, axes: Axes): State
    requires forall i :: 0 <= i < |es| ==> Measured(es[i])
    decreases |es|
  {
    if es == [] then s else Run(Apply(s, es[0], axes), es[1..], axes)
  }

  /** From activation on (`Activate` establishes `Inv`), whatever the user
      does, an axis lock is only ever held while a first point is picked,
      anchored at that point, and the view is locked to exactly that axis
      line. */
  lemma {:induction false} RunKeepsInv(s: State, es: seq<Event>, axes: Axes)
    requires Inv(s)
    requires forall i :: 0 <= i < |es| ==> Measured(es[i])
    ensures Inv(Run(s, es, axes))
    decreases |es|
  {
    if es != [] {
      RunKeepsInv(Apply(s, es[0], axes), es[1..], axes);
    }
  }
}

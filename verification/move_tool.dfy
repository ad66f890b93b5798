/** The `ComponentMoveTool` of the in-tool-selection example. It has a
    selection stage (hovering selects a component, a click adopts it) and a
    move stage bracketed by one host operation: the first click opens the
    operation and fixes the start point, mouse moves translate the selection
    by the distance moved since the last event, and a second click, a drag
    release or a typed distance commits. The tool uses the same inference
    lock helper as the inference-lock line tool. */
module ComponentMoveTool {
  import opened Options
  import opened Geometry
  import opened Host
  import opened Picking
  import IL = InferenceLock

  datatype EntityKind = ComponentInstance | Group | Face | Edge | OtherEntity

  datatype Entity = Entity(id: nat, kind: EntityKind)

  /** Calls into the host's undo transaction. */
  datatype Operation = StartOperation | CommitOperation | AbortOperation

  datatype Cursor = MoveCursor | InvalidCursor

  /** `modelSelection` is the host's selection, `selection` the tool's own;
      `lastMouse` is where the selection was last moved to. */
  datatype State = State(
    first: InputPoint,
    mouse: InputPoint,
    mouseDown: ScreenPoint,
    lock: IL.LockState,
    modelSelection: seq<Entity>,
    selection: seq<Entity>,
    preselected: bool,
    inOperation: bool,
    lastMouse: Option<Point>,
    hovered: Option<Entity>,
    validHovered: bool)

  /** A handler's result: the next state, the operation call it made, the
      translation it applied to the selection, and what it showed. */
  datatype Outcome = Outcome(next: State, operation: Option<Operation>, translation: Option<Vector>, feedback: Feedback)

  /** `valid_entity?`: only component instances can be moved, so groups,
      faces, edges and everything else are refused. */
  function ValidEntity(e: Entity): (ok: bool)
    ensures ok <==> e.kind !in {Group, Face, Edge, OtherEntity}
  {
    e.kind == ComponentInstance
  }

  /** `valid_selection?`: exactly one entity, and a movable one. */
  function ValidSelection(sel: seq<Entity>): (ok: bool)
    ensures ok <==> |sel| == 1 && sel[0].kind == ComponentInstance
  {
    |sel| == 1 && ValidEntity(sel[0])
  }

  /** The helper's lock agrees with the view and any axis lock is anchored at
      the start point; while a start point is picked the operation is open,
      the selection is not empty and the last move position is known. */
  predicate Inv(s: State) {
    && IL.Inv(s.lock)
    && (s.lock.axisLock.Some? ==> s.first.valid && s.lock.axisLock.value.anchor == s.first.position)
    && (s.first.valid ==> s.inOperation && s.lastMouse.Some? && |s.selection| > 0)
  }

  /** `initialize`: a preselection is kept only when it is exactly one
      component instance, and `preselected` records whether one was kept. */
  function Initialize(modelSelection: seq<Entity>): (s: State)
    ensures s.modelSelection == (if ValidSelection(modelSelection) then modelSelection else [])
    ensures s.selection == s.modelSelection
    ensures s.preselected <==> ValidSelection(modelSelection)
    ensures s.preselected <==> |s.selection| > 0
    ensures !s.first.valid && !s.inOperation && s.lock == IL.Released
    ensures s.hovered.None? && !s.validHovered
    ensures !s.mouse.valid && s.mouseDown == ScreenPoint(0, 0) && s.lastMouse.None?
    ensures Inv(s)
  {
    var kept := if ValidSelection(modelSelection) then modelSelection else [];
    State(NoPoint, NoPoint, ScreenPoint(0, 0), IL.Released, kept, kept, |kept| > 0, false, None, None, false)
  }

  /** `deactivate`: unlocks inference, and aborts the operation exactly when
      one is recorded as open. The flag itself is left as it was. */
  function Deactivate(s: State): (r: Outcome)
    ensures r.next == s.(lock := IL.Released)
    ensures r.operation == (if s.inOperation then Some(AbortOperation) else None)
    ensures r.translation.None?
    ensures Inv(s) ==> Inv(r.next)
  {
    Outcome(s.(lock := IL.Unlock(s.lock)), if s.inOperation then Some(AbortOperation) else None, None, Quiet)
  }

  /** `reset_tool`: no start point, no lock, both selections empty and no
      preselection. The operation flag is not touched. */
  function ResetTool(s: State): (r: State)
    ensures !r.first.valid && r.lock == IL.Released
    ensures r.modelSelection == [] && r.selection == [] && !r.preselected
    ensures r.inOperation == s.inOperation && r.mouse == s.mouse && r.lastMouse == s.lastMouse
    ensures r.mouseDown == s.mouseDown && r.hovered == s.hovered && r.validHovered == s.validHovered
    ensures Inv(r)
  {
    s.(first := Cleared(s.first), lock := IL.Unlock(s.lock), modelSelection := [], selection := [], preselected := false)
  }

  /** `onCancel`: resets the tool, but neither commits nor aborts an open
      operation. */
  function OnCancel(s: State, reason: int): (r: State)
    ensures !r.first.valid && r.selection == [] && r.lock == IL.Released
    ensures r.modelSelection == [] && !r.preselected
    ensures r.inOperation == s.inOperation && r.mouse == s.mouse && r.lastMouse == s.lastMouse
    ensures r.mouseDown == s.mouseDown && r.hovered == s.hovered && r.validHovered == s.validHovered
    ensures Inv(r)
  {
    ResetTool(s)
  }

  /** `try_select_entity`: the host selection becomes the hovered entity when
      it is movable and is emptied otherwise; the validity flag is only
      updated when something is hovered. */
  function TrySelectEntity(s: State, best: Option<Entity>): (r: State)
    ensures r.hovered == best
    ensures r.modelSelection == (if best.Some? && ValidEntity(best.value) then [best.value] else [])
    ensures best.Some? ==> r.validHovered == ValidEntity(best.value)
    ensures best.None? ==> r.validHovered == s.validHovered
    ensures r == s.(modelSelection := r.modelSelection, hovered := r.hovered, validHovered := r.validHovered)
    ensures Inv(s) ==> Inv(r)
  {
    var cleared := s.(modelSelection := [], hovered := best);
    match best
    case None => cleared
    case Some(e) =>
      if ValidEntity(e) then cleared.(validHovered := true, modelSelection := [e])
      else cleared.(validHovered := false)
  }

  /** `do_move`: translates the selection by the displacement since the last
      position and remembers the new one; nothing happens before the first
      `start_move`. */
  function DoMove(s: State): (r: (State, Option<Vector>))
    ensures s.lastMouse.None? ==> r == (s, None)
    ensures s.lastMouse.Some? ==>
      && r.1 == Some(VectorTo(s.lastMouse.value, s.mouse.position))
      && r.0 == s.(lastMouse := Some(s.mouse.position))
      && Offset(s.lastMouse.value, r.1.value) == r.0.lastMouse.value
  {
    match s.lastMouse
    case None => (s, None)
    case Some(last) => (s.(lastMouse := Some(s.mouse.position)), Some(VectorTo(last, s.mouse.position)))
  }

  /** `pick_mouse_position`: re-picks the mouse point, and during the move
      stage moves the selection along. */
  function PickMousePosition(s: State, pick: Picker): (r: Outcome)
    ensures r.next.mouse == pick(if s.first.valid then Some(s.first) else None)
    ensures r.next == s.(mouse := r.next.mouse, lastMouse := r.next.lastMouse)
    ensures r.operation.None? && r.feedback == Quiet
    ensures !s.first.valid ==> r.translation.None? && r.next.lastMouse == s.lastMouse
    ensures s.first.valid && s.lastMouse.Some? ==>
      r.translation == Some(VectorTo(s.lastMouse.value, r.next.mouse.position)) &&
      r.next.lastMouse == Some(r.next.mouse.position)
    ensures Inv(s) ==> Inv(r.next)
  {
    var picked := s.(mouse := pick(PickReference(s.first)));
    if picked.first.valid then
      var (moved, translation) := DoMove(picked);
      Outcome(moved, None, translation, Quiet)
    else
      Outcome(picked, None, None, Quiet)
  }

  /** `onMouseMove`: at the selection stage (empty tool selection) the
      hovered entity is tried first; then the mouse point is re-picked. */
  function OnMouseMove(s: State, best: Option<Entity>, pick: Picker): (r: Outcome)
    ensures |s.selection| > 0 ==> r == PickMousePosition(s, pick)
    ensures |s.selection| == 0 ==>
      && r.next.hovered == best
      && r.next.modelSelection == (if best.Some? && ValidEntity(best.value) then [best.value] else [])
      && (best.Some? ==> r.next.validHovered == ValidEntity(best.value))
      && (best.None? ==> r.next.validHovered == s.validHovered)
      && r.next.mouse == pick(if s.first.valid then Some(s.first) else None)
      && r.next == s.(mouse := r.next.mouse, lastMouse := r.next.lastMouse, modelSelection := r.next.modelSelection,
                      hovered := r.next.hovered, validHovered := r.next.validHovered)
    ensures r.next.first == s.first && r.next.selection == s.selection && r.operation.None?
    ensures !s.first.valid ==> r.translation.None?
    ensures s.first.valid && s.lastMouse.Some? ==>
      r.translation == Some(VectorTo(s.lastMouse.value, r.next.mouse.position))
    ensures Inv(s) ==> Inv(r.next)
  {
    var t := if |s.selection| == 0 then TrySelectEntity(s, best) else s;
    PickMousePosition(t, pick)
  }

  /** `onKeyDown`: the helper sees the mouse point as active point and the
      start point as reference; then the mouse point is re-picked, which
      during the move stage also moves the selection. */
  function OnKeyDown(s: State, key: IL.Key, axes: Axes, pick: Picker): (r: Outcome)
    ensures r == PickMousePosition(s.(lock := r.next.lock), pick)
    ensures r.next.lock == IL.OnKeyDown(s.lock, key, axes, Sampled(s.mouse), Sampled(s.first))
    ensures r.next.first == s.first && r.operation.None?
    ensures Inv(s) ==> Inv(r.next)
  {
    PickMousePosition(s.(lock := IL.OnKeyDown(s.lock, key, axes, Sampled(s.mouse), Sampled(s.first))), pick)
  }

  /** `onKeyUp`: the helper first, then a re-pick as for a key press. */
  function OnKeyUp(s: State, key: IL.Key, pick: Picker): (r: Outcome)
    ensures r == PickMousePosition(s.(lock := r.next.lock), pick)
    ensures r.next.lock == IL.OnKeyUp(s.lock, key)
    ensures r.next.first == s.first && r.operation.None?
    ensures Inv(s) ==> Inv(r.next)
  {
    PickMousePosition(s.(lock := IL.OnKeyUp(s.lock, key)), pick)
  }

  /** `start_move`: a start point fixed at the mouse position, an operation
      opened and recorded as open, and the move origin set there. */
  function StartMove(s: State): (r: Outcome)
    ensures r.operation == Some(StartOperation) && r.translation.None?
    ensures r.next.first == Fixed(s.mouse.position)
    ensures r.next.inOperation && r.next.lastMouse == Some(s.mouse.position)
    ensures r.next == s.(first := r.next.first, inOperation := true, lastMouse := r.next.lastMouse)
  {
    Outcome(s.(first := Fixed(s.mouse.position), inOperation := true, lastMouse := Some(s.mouse.position)),
            Some(StartOperation), None, Quiet)
  }

  /** `end_move`: commits, clears the flag and the start point, unlocks, and
      drops the selection unless the tool started with a preselection. */
  function EndMove(s: State): (r: Outcome)
    ensures r.operation == Some(CommitOperation) && r.translation.None?
    ensures !r.next.inOperation && !r.next.first.valid && r.next.lock == IL.Released
    ensures s.preselected ==> r.next.selection == s.selection && r.next.modelSelection == s.modelSelection && r.next.preselected
    ensures !s.preselected ==> r.next.selection == [] && r.next.modelSelection == [] && !r.next.preselected
    ensures r.next == s.(first := r.next.first, inOperation := false, lock := IL.Released, selection := r.next.selection,
                         modelSelection := r.next.modelSelection, preselected := r.next.preselected)
    ensures Inv(r.next)
  {
    var closed := s.(inOperation := false, first := Cleared(s.first), lock := IL.Unlock(s.lock));
    Outcome(if s.preselected then closed else ResetTool(closed), Some(CommitOperation), None, Quiet)
  }

  /** `onLButtonDown`: records the press; an empty tool selection adopts the
      host selection; if it is still empty nothing else happens; otherwise
      the click starts the move stage, or ends it when a start point is
      already picked. */
  function OnLButtonDown(s: State, x: int, y: int): (r: Outcome)
    ensures r.next.mouseDown == ScreenPoint(x, y)
    ensures |s.selection| == 0 && |s.modelSelection| == 0 ==>
      r == Outcome(s.(mouseDown := ScreenPoint(x, y)), None, None, Quiet)
    ensures var adopted := s.(mouseDown := ScreenPoint(x, y),
                              selection := if |s.selection| > 0 then s.selection else s.modelSelection);
      && (|adopted.selection| > 0 && !s.first.valid ==> r == StartMove(adopted))
      && (|adopted.selection| > 0 && s.first.valid ==> r == EndMove(adopted))
    ensures (|s.selection| > 0 || |s.modelSelection| > 0) && !s.first.valid ==>
      r.operation == Some(StartOperation) && r.next.first.valid && r.next.inOperation &&
      r.next.selection == (if |s.selection| > 0 then s.selection else s.modelSelection)
    ensures (|s.selection| > 0 || |s.modelSelection| > 0) && s.first.valid ==>
      r.operation == Some(CommitOperation) && !r.next.first.valid && !r.next.inOperation
    ensures Inv(s) ==> Inv(r.next)
  {
    var pressed := s.(mouseDown := ScreenPoint(x, y));
    var adopted := if |pressed.selection| == 0 then pressed.(selection := pressed.modelSelection) else pressed;
    if |adopted.selection| == 0 then Outcome(adopted, None, None, Quiet)
    else if !adopted.first.valid then StartMove(adopted)
    else EndMove(adopted)
  }

  /** `onLButtonUp`: beyond the threshold the move is ended, without asking
      whether one is in progress. */
  function OnLButtonUp(s: State, x: int, y: int): (r: Outcome)
    ensures IsDrag(s.mouseDown, ScreenPoint(x, y)) ==> r == EndMove(s)
    ensures IsDrag(s.mouseDown, ScreenPoint(x, y)) ==>
      r.operation == Some(CommitOperation) && !r.next.first.valid && !r.next.inOperation
    ensures !IsDrag(s.mouseDown, ScreenPoint(x, y)) ==> r == Outcome(s, None, None, Quiet)
    ensures Inv(s) ==> Inv(r.next)
  {
    if IsDrag(s.mouseDown, ScreenPoint(x, y)) then EndMove(s) else Outcome(s, None, None, Quiet)
  }

  /** `onUserText`, with `parsed` the result of `text.to_l` and `measured`
      the host's length of the direction from the start to the mouse point,
      of which the handler needs only that it is positive for a non-zero
      direction. A failed parse shows a message and changes nothing; fewer
      than two picked points, or two at the same position (a zero direction,
      which `offset` refuses), make it raise before any change. Otherwise the
      mouse point is placed the typed distance along that direction, the
      selection is moved there, and the move ends. */
  function OnUserText(s: State, parsed: Option<real>, measured: real): (r: Outcome)
    requires s.first.valid && s.mouse.valid && s.first.position != s.mouse.position ==> measured > 0.0
    ensures parsed.None? ==> r == Outcome(s, None, None, MessageBox("Invalid length"))
    ensures parsed.Some? && !(s.first.valid && s.mouse.valid) ==> r == Outcome(s, None, None, Raised)
    ensures parsed.Some? && s.first.valid && s.mouse.valid && s.first.position == s.mouse.position ==>
      r == Outcome(s, None, None, Raised)
    ensures r.operation.Some? <==> parsed.Some? && s.first.valid && s.mouse.valid && s.first.position != s.mouse.position
    ensures r.operation.Some? ==>
      var end := PointAlong(s.first.position, s.mouse.position, parsed.value, measured);
      && r.operation == Some(CommitOperation)
      && r.translation == (if s.lastMouse.Some? then Some(VectorTo(s.lastMouse.value, end)) else None)
      && r.next.mouse == Fixed(end)
      && !r.next.first.valid && !r.next.inOperation && r.next.lock == IL.Released
      && r.next.selection == (if s.preselected then s.selection else [])
      && r.next.modelSelection == (if s.preselected then s.modelSelection else [])
      && r.next.preselected == s.preselected
      && r.next.lastMouse == (if s.lastMouse.Some? then Some(end) else None)
      && r.next.mouseDown == s.mouseDown && r.next.hovered == s.hovered && r.next.validHovered == s.validHovered
      && r.feedback == Quiet
    ensures Inv(s) ==> Inv(r.next)
  {
    if parsed.None? then Outcome(s, None, None, MessageBox("Invalid length"))
    else
      var pts := PickedPoints(s.first, s.mouse);
      if |pts| < 2 || pts[0] == pts[1] then Outcome(s, None, None, Raised)
      else
        DistinctPointsNonZero(pts[0], pts[1]);
        var end := PointAlong(pts[0], pts[1], parsed.value, measured);
        var (moved, translation) := DoMove(s.(mouse := Fixed(end)));
        var ended := EndMove(moved);
        Outcome(ended.next, ended.operation, translation, Quiet)
  }

  /** `enableVCB?` keeps the measurement bar disabled until a start point is
      picked, and without one the handler could not move anything anyway: it
      changes nothing and makes no operation call, raising for a length. */
  lemma TextWhileVcbDisabled(s: State, parsed: Option<real>, measured: real)
    requires !VcbEnabled(s.first)
    ensures OnUserText(s, parsed, measured).next == s
    ensures OnUserText(s, parsed, measured).operation.None? && OnUserText(s, parsed, measured).translation.None?
    ensures parsed.Some? ==> OnUserText(s, parsed, measured).feedback == Raised
  {
  }

  /** `onSetCursor`: the invalid cursor only at the selection stage over an
      entity the tool cannot move. */
  function OnSetCursor(s: State): (c: Cursor)
    ensures c == InvalidCursor <==> !s.first.valid && s.hovered.Some? && !s.validHovered
  {
    if !s.first.valid && s.hovered.Some? && !s.validHovered then InvalidCursor else MoveCursor
  }

  /** The status text of `update_ui`, one per stage. */
  function StatusText(s: State): (text: string)
    ensures text == "Select a component." <==> |s.selection| == 0
    ensures text == "Select end point." <==> |s.selection| > 0 && s.first.valid
    ensures text == "Select start point." <==> |s.selection| > 0 && !s.first.valid
  {
    if |s.selection| == 0 then "Select a component."
    else if !s.first.valid then "Select start point."
    else "Select end point."
  }

  /** At the selection stage the cursor after a mouse move tells whether
      the hovered entity can be moved: invalid exactly over an entity the
      tool refuses, and never over empty space. */
  lemma HoverCursor(s: State, best: Option<Entity>, pick: Picker)
    requires |s.selection| == 0 && !s.first.valid
    ensures best.Some? ==>
      (OnSetCursor(OnMouseMove(s, best, pick).next) == InvalidCursor <==> !ValidEntity(best.value))
    ensures best.None? ==> OnSetCursor(OnMouseMove(s, best, pick).next) == MoveCursor
  {
  }

  /** Under the invariant the status text tracks the stage: asking for the
      end point means a move operation is open from a known position, and a
      fresh tool asks for a start point exactly when it kept a preselection. */
  lemma StatusUnderInv(s: State, modelSelection: seq<Entity>)
    ensures Inv(s) && StatusText(s) == "Select end point." ==> s.inOperation && s.lastMouse.Some?
    ensures StatusText(Initialize(modelSelection)) ==
      (if ValidSelection(modelSelection) then "Select start point." else "Select a component.")
  {
  }

  /** At the selection stage, hovering a movable entity and clicking adopts
      exactly that entity and starts moving it from the picked point;
      hovering anything else and clicking stays at the selection stage. */
  lemma HoverThenClick(s: State, e: Entity, pick: Picker, x: int, y: int)
    requires |s.selection| == 0 && !s.first.valid
    ensures var hovered := OnMouseMove(s, Some(e), pick).next;
      var clicked := OnLButtonDown(hovered, x, y);
      && (ValidEntity(e) ==>
            clicked.operation == Some(StartOperation) && clicked.next.selection == [e] &&
            clicked.next.first == Fixed(hovered.mouse.position))
      && (!ValidEntity(e) ==> clicked.operation.None? && clicked.next.selection == [] && !clicked.next.first.valid)
  {
  }

  /** A click with nothing selected anywhere changes only the press
      position, and a drag release after it still commits although no
      operation was opened. */
  lemma ReleaseCommitsWithoutOperation(x: int, y: int, ux: int, uy: int)
    requires IsDrag(ScreenPoint(x, y), ScreenPoint(ux, uy))
    ensures var s := Initialize([]);
      var pressed := OnLButtonDown(s, x, y);
      && pressed.next == s.(mouseDown := ScreenPoint(x, y)) && pressed.operation.None?
      && !pressed.next.inOperation
      && OnLButtonUp(pressed.next, ux, uy).operation == Some(CommitOperation)
  {
  }

  /** Cancelling mid-move leaves the operation open: `onCancel` resets the
      tool but keeps `in_operation`, so only a later `deactivate` aborts. */
  lemma CancelLeavesOperationOpen(s: State, reason: int)
    requires s.inOperation
    ensures OnCancel(s, reason).inOperation
    ensures Deactivate(OnCancel(s, reason)).operation == Some(AbortOperation)
  {
  }

  datatype Event =
    | MouseMove(best: Option<Entity>, pick: Picker)
    | KeyDown(key: IL.Key, downPick: Picker)
    | KeyUp(key: IL.Key, upPick: Picker)
    | Press(x: int, y: int)
    | Release(rx: int, ry: int)
    | Text(parsed: Option<real>, length: Vector -> real)
    | Cancel(reason: int)
    | Leave

  /** A text event's length is the host's measurement. */
  ghost predicate Measured(e: Event) {
    e.Text? ==> HostMeasures(e.length)
  }

  function Step(s: State, e: Event, axes: Axes): (r: Outcome)
    requires Measured(e)
    ensures Inv(s) ==> Inv(r.next)
  {
    match e
    case MouseMove(best, pick) => OnMouseMove(s, best, pick)
    case KeyDown(key, pick) => OnKeyDown(s, key, axes, pick)
    case KeyUp(key, pick) => OnKeyUp(s, key, pick)
    case Press(x, y) => OnLButtonDown(s, x, y)
    case Release(x, y) => OnLButtonUp(s, x, y)
    case Text(parsed, length) => OnUserText(s, parsed, length(VectorTo(s.first.position, s.mouse.position)))
    case Cancel(reason) => Outcome(OnCancel(s, reason), None, None, Quiet)
    case Leave => Deactivate(s)
  }

  function Run(s: State, es: seq<Event>, axes: Axes): State
    requires forall i :: 0 <= i < |es| ==> Measured(es[i])
    decreases |es|
  {
    if es == [] then s else Run(Step(s, es[0], axes).next, es[1..], axes)
  }

  /** The sum of the translations applied to the selection along a run. */
  function Moved(s: State, es: seq<Event>, axes: Axes): Vector
    requires forall i :: 0 <= i < |es| ==> Measured(es[i])
    decreases |es|
  {
    if es == [] then ZeroVector
    else
      var o := Step(s, es[0], axes);
      Plus(o.translation.GetOr(ZeroVector), Moved(o.next, es[1..], axes))
  }

  /** From initialization on, whatever the user does: a start point is only
      picked while the operation is recorded open over a non-empty
      selection, and an axis lock only while a start point anchors it. */
  lemma {:induction false} RunKeepsInv(s: State, es: seq<Event>, axes: Axes)
    requires Inv(s)
    requires forall i :: 0 <= i < |es| ==> Measured(es[i])
    ensures Inv(Run(s, es, axes))
    decreases |es|
  {
    if es != [] {
      RunKeepsInv(Step(s, es[0], axes).next, es[1..], axes);
    }
  }

  /** During the move stage, mouse moves and key presses and releases (each
      of which re-picks the mouse point) translate the selection in steps
      whose sum is the displacement from where the move stood to where the
      mouse ends up: the selection follows the mouse exactly. */
  lemma {:induction false} MovesSumToDisplacement(s: State, es: seq<Event>, axes: Axes, start: Point)
    requires s.first.valid && s.lastMouse == Some(start)
    requires forall i :: 0 <= i < |es| ==> es[i].MouseMove? || es[i].KeyDown? || es[i].KeyUp?
    ensures Run(s, es, axes).lastMouse.Some?
    ensures Moved(s, es, axes) == VectorTo(start, Run(s, es, axes).lastMouse.value)
    ensures es != [] ==> Run(s, es, axes).lastMouse == Some(Run(s, es, axes).mouse.position)
    decreases |es|
  {
    if es == [] {
      assert VectorTo(start, start) == ZeroVector;
    } else {
      var o := Step(s, es[0], axes);
      var p := o.next.mouse.position;
      assert o.translation == Some(VectorTo(start, p));
      assert o.next.first.valid && o.next.lastMouse == Some(p);
      MovesSumToDisplacement(o.next, es[1..], axes, p);
      VectorToChain(start, p, Run(o.next, es[1..], axes).lastMouse.value);
    }
  }
}

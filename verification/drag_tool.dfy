/** The press-drag-release `LineTool`. A click picks points as in the
    click-click tool; in addition, releasing the button more than
    `DragThreshold` pixels from where it went down draws an edge to the
    release point and always resets, so drag-drawing never chains. */
module PressDragTool {
  import opened Options
  import opened Geometry
  import opened Host
  import opened Picking
  import CustomTool

  /** `mouseDown` is where on screen the button last went down. */
  datatype State = State(first: InputPoint, mouse: InputPoint, mouseDown: ScreenPoint)

  /** `activate`: nothing picked, press position at the screen origin. */
  function Activate(): (s: State)
    ensures !s.first.valid && !s.mouse.valid
    ensures s.mouseDown == ScreenPoint(0, 0)
  {
    State(NoPoint, NoPoint, ScreenPoint(0, 0))
  }

  /** `reset_tool`: forgets the first point and nothing else. */
  function ResetTool(s: State): (r: State)
    ensures !r.first.valid
    ensures r.mouse == s.mouse && r.mouseDown == s.mouseDown
  {
    s.(first := Cleared(s.first))
  }

  /** `onCancel`: resets whatever the reason. */
  function OnCancel(s: State, reason: int): (r: State)
    ensures !r.first.valid
    ensures r.mouse == s.mouse && r.mouseDown == s.mouseDown
  {
    ResetTool(s)
  }

  /** `onMouseMove`: only the mouse point changes. */
  function OnMouseMove(s: State, pick: Picker): (r: State)
    ensures r.first == s.first && r.mouseDown == s.mouseDown
    ensures r.mouse == pick(if s.first.valid then Some(s.first) else None)
  {
    s.(mouse := pick(PickReference(s.first)))
  }

  /** `create_edge`: an edge through the picked points, and the number of
      faces it closed, with the host's nil read as 0. */
  function CreateEdge(s: State, found: Option<nat>): (r: (seq<Point>, nat))
    ensures r.0 == PickedPoints(s.first, s.mouse)
    ensures r.1 == found.GetOr(0)
  {
    (PickedPoints(s.first, s.mouse), CoercedFaceCount(found))
  }

  /** `onLButtonDown`: records the press position first; an edge is created
      only when a first point is picked; the tool resets when that edge
      closed a face and otherwise takes the mouse point as first point. */
  function OnLButtonDown(s: State, x: int, y: int, found: Option<nat>): (r: Reaction<State, seq<Point>>)
    ensures r.next.mouseDown == ScreenPoint(x, y)
    ensures r.commit.Some? <==> s.first.valid
    ensures r.commit.Some? ==> r.commit.value == PickedPoints(s.first, s.mouse)
    ensures s.first.valid && found.GetOr(0) > 0 ==> !r.next.first.valid
    ensures !(s.first.valid && found.GetOr(0) > 0) ==> r.next.first == s.mouse
    ensures r.next.mouse == s.mouse && r.feedback == Quiet
  {
    var pressed := s.(mouseDown := ScreenPoint(x, y));
    if pressed.first.valid then
      var (edge, faces) := CreateEdge(pressed, found);
      var next := if faces > 0 then ResetTool(pressed) else pressed.(first := pressed.mouse);
      Reaction(next, Some(edge), Quiet)
    else
      Reaction(pressed.(first := pressed.mouse), None, Quiet)
  }

  /** `onLButtonUp`: beyond the threshold the edge is drawn and the tool
      resets whatever the face count (which is therefore not asked for);
      at or within it nothing happens. */
  function OnLButtonUp(s: State, x: int, y: int): (r: Reaction<State, seq<Point>>)
    ensures IsDrag(s.mouseDown, ScreenPoint(x, y)) ==>
      r.commit == Some(PickedPoints(s.first, s.mouse)) && r.next == s.(first := Cleared(s.first))
    ensures !IsDrag(s.mouseDown, ScreenPoint(x, y)) ==> r.next == s && r.commit.None?
    ensures r.feedback == Quiet
  {
    if IsDrag(s.mouseDown, ScreenPoint(x, y)) then
      Reaction(ResetTool(s), Some(CreateEdge(s, None).0), Quiet)
    else
      Reaction(s, None, Quiet)
  }

  /** Releasing where the button went down is a click and draws nothing;
      releasing anywhere else draws exactly when it is a drag. */
  lemma DragVersusClick(s: State, x: int, y: int, found: Option<nat>, ux: int, uy: int)
    ensures var pressed := OnLButtonDown(s, x, y, found).next;
      && (OnLButtonUp(pressed, ux, uy).commit.Some? <==> IsDrag(ScreenPoint(x, y), ScreenPoint(ux, uy)))
      && OnLButtonUp(pressed, x, y).commit.None?
  {
  }

  /** A whole press-drag-release gesture from an idle tool: pressing on the
      picked point takes it as first point, dragging re-picks relative to it,
      and a release beyond the threshold draws the edge from the pressed
      point to the released one and leaves the tool idle again. */
  lemma PressDragReleaseDrawsEdge(s: State, pressPick: Picker, dragPick: Picker, x: int, y: int, found: Option<nat>, ux: int, uy: int)
    requires !s.first.valid
    requires IsDrag(ScreenPoint(x, y), ScreenPoint(ux, uy))
    ensures var hovered := OnMouseMove(s, pressPick);
      var pressed := OnLButtonDown(hovered, x, y, found);
      var dragged := OnMouseMove(pressed.next, dragPick);
      var released := OnLButtonUp(dragged, ux, uy);
      && pressed.commit.None?
      && (hovered.mouse.valid ==> dragged.mouse == dragPick(Some(hovered.mouse)))
      && (hovered.mouse.valid && dragged.mouse.valid ==>
            released.commit == Some([hovered.mouse.position, dragged.mouse.position]))
      && !released.next.first.valid
  {
    var hovered := OnMouseMove(s, pressPick);
    var dragged := OnMouseMove(OnLButtonDown(hovered, x, y, found).next, dragPick);
    if hovered.mouse.valid && dragged.mouse.valid {
      assert PickedPoints(dragged.first, dragged.mouse) == [hovered.mouse.position, dragged.mouse.position];
    }
  }

  /** A press does what a click of the click-click tool does when the host
      reports a count: the same edge, the same first and mouse points
      afterwards. On a nil count the two part: this tool reads nil as 0 and
      chains, the click-click tool raises and keeps its first point. */
  lemma PressAgreesWithClick(s: State, x: int, y: int, found: Option<nat>)
    ensures var pressed := OnLButtonDown(s, x, y, found);
      var clicked := CustomTool.OnLButtonDown(CustomTool.State(s.first, s.mouse), found);
      && pressed.commit == clicked.commit
      && (found.Some? || !s.first.valid ==>
            pressed.next.first == clicked.next.first && pressed.next.mouse == clicked.next.mouse)
      && (found.None? && s.first.valid ==>
            pressed.next.first == s.mouse && clicked.next.first == s.first
            && pressed.feedback == Quiet && clicked.feedback == Raised)
  {
  }

  /** Cancelling does not forget the press position, so a release far from
      it after a cancel still asks the host for an edge, through the mouse
      point alone. */
  lemma ReleaseAfterCancelRequestsOnePointEdge(s: State, reason: int, ux: int, uy: int)
    requires s.mouse.valid && IsDrag(s.mouseDown, ScreenPoint(ux, uy))
    ensures OnLButtonUp(OnCancel(s, reason), ux, uy).commit == Some([s.mouse.position])
  {
    assert PickedPoints(OnCancel(s, reason).first, s.mouse) == [s.mouse.position];
  }

  /** The release does not check for a first point: when the press closed a
      face and reset the tool, a drag release still asks the host for an
      edge, through the mouse point alone. */
  lemma ReleaseAfterResetRequestsOnePointEdge(s: State, faces: nat, x: int, y: int, ux: int, uy: int)
    requires s.first.valid && s.mouse.valid && faces > 0
    requires IsDrag(ScreenPoint(x, y), ScreenPoint(ux, uy))
    ensures var pressed := OnLButtonDown(s, x, y, Some(faces)).next;
      !pressed.first.valid &&
      OnLButtonUp(pressed, ux, uy).commit == Some([s.mouse.position])
  {
    var pressed := OnLButtonDown(s, x, y, Some(faces)).next;
    assert PickedPoints(pressed.first, pressed.mouse) == [s.mouse.position];
  }

  /** Straight after activation the press position is the screen origin, so
      a release far from it before any press asks the host for an edge
      through the mouse point alone, and one near it does nothing; the first
      press draws nothing and takes the picked point as first point. */
  lemma ReleaseAfterActivate(pick: Picker, x: int, y: int, found: Option<nat>, ux: int, uy: int)
    ensures var hovered := OnMouseMove(Activate(), pick);
      && hovered.mouse == pick(None)
      && (IsDrag(ScreenPoint(0, 0), ScreenPoint(ux, uy)) && pick(None).valid ==>
            OnLButtonUp(hovered, ux, uy).commit == Some([pick(None).position]))
      && (!IsDrag(ScreenPoint(0, 0), ScreenPoint(ux, uy)) ==> OnLButtonUp(hovered, ux, uy).next == hovered)
      && OnLButtonDown(hovered, x, y, found).commit.None?
      && OnLButtonDown(hovered, x, y, found).next.first == pick(None)
  {
    var hovered := OnMouseMove(Activate(), pick);
    if pick(None).valid {
      assert PickedPoints(hovered.first, hovered.mouse) == [pick(None).position];
    }
  }
}

/** The click-click `LineTool` of the custom-tool example. The tutorial's
    `LineTool` is the same code with longer comments, so one model serves
    both. Each click after the first draws an edge from the first point to
    the mouse point; the tool resets if the edge closed a face and otherwise
    chains from the clicked point. */
module CustomTool {
  import opened Options
  import opened Geometry
  import opened Host
  import opened Picking

  datatype State = State(first: InputPoint, mouse: InputPoint)

  /** `activate`: no first point and no mouse point. */
  function Activate(): (s: State)
    ensures !s.first.valid && !s.mouse.valid
    ensures PickedPoints(s.first, s.mouse) == []
  {
    State(NoPoint, NoPoint)
  }

  /** `reset_tool`: forgets the first point. */
  function ResetTool(s: State): (r: State)
    ensures !r.first.valid
    ensures r.mouse == s.mouse
  {
    s.(first := Cleared(s.first))
  }

  /** `onCancel`: whatever the reason, the tool resets. */
  function OnCancel(s: State, reason: int): (r: State)
    ensures !r.first.valid && r.mouse == s.mouse
    ensures LineStatusText(r.first) == "Select start point."
  {
    ResetTool(s)
  }

  /** `onMouseMove`: picks relative to the first point exactly when one is
      picked; only the mouse point changes. */
  function OnMouseMove(s: State, pick: Picker): (r: State)
    ensures r.first == s.first
    ensures s.first.valid ==> r.mouse == pick(Some(s.first))
    ensures !s.first.valid ==> r.mouse == pick(None)
  {
    s.(mouse := pick(PickReference(s.first)))
  }

  /** `onLButtonDown`, with `found` what the host's `find_faces` returned for
      the new edge: a count, or nil. The code compares it with 0 without a
      nil guard, so a nil count raises after the edge is added and before the
      first point is touched: the edge stays, the state does not change. */
  function OnLButtonDown(s: State, found: Option<nat>): (r: Reaction<State, seq<Point>>)
    ensures r.commit.Some? <==> s.first.valid
    ensures r.commit.Some? ==> r.commit.value == PickedPoints(s.first, s.mouse)
    ensures s.first.valid && found.None? ==> r.next == s && r.feedback == Raised
    ensures !(s.first.valid && found.None?) ==> r.feedback == Quiet
    ensures s.first.valid && found.Some? && found.value > 0 ==> !r.next.first.valid
    ensures !s.first.valid || found == Some(0) ==> r.next.first == s.mouse
    ensures r.next.mouse == s.mouse
  {
    if !s.first.valid then
      Reaction(s.(first := s.mouse), None, Quiet)
    else
      var edge := PickedPoints(s.first, s.mouse);
      match found
      case None => Reaction(s, Some(edge), Raised)
      case Some(faces) =>
        var next := if faces > 0 then ResetTool(s) else s.(first := s.mouse);
        Reaction(next, Some(edge), Quiet)
  }

  /** A click without a first point creates no edge and takes the mouse point
      as the first point, whatever the host would have counted. */
  lemma ClickWithoutFirstPicksStart(s: State, found: Option<nat>)
    requires !s.first.valid
    ensures OnLButtonDown(s, found).commit.None?
    ensures OnLButtonDown(s, found).next == State(s.mouse, s.mouse)
  {
  }

  /** A click with a first point and a counted result creates one edge, first
      point to mouse point, and resets iff that edge closed a face; otherwise
      the clicked point starts the next edge. */
  lemma ClickWithFirstChainsOrResets(s: State, faces: nat)
    requires s.first.valid && s.mouse.valid
    ensures OnLButtonDown(s, Some(faces)).commit == Some([s.first.position, s.mouse.position])
    ensures !OnLButtonDown(s, Some(faces)).next.first.valid <==> faces > 0
    ensures faces == 0 ==> OnLButtonDown(s, Some(faces)).next.first == s.mouse
  {
    assert PickedPoints(s.first, s.mouse) == [s.first.position, s.mouse.position];
  }

  /** Nil is not read as 0: both add the edge, but a count of 0 chains from
      the clicked point while nil raises and keeps the old first point. */
  lemma NilFaceCountIsNotZero(s: State)
    requires s.first.valid && s.mouse.valid && s.first != s.mouse
    ensures OnLButtonDown(s, None).commit == OnLButtonDown(s, Some(0)).commit
    ensures OnLButtonDown(s, None).next.first == s.first
    ensures OnLButtonDown(s, Some(0)).next.first == s.mouse
    ensures OnLButtonDown(s, None).next.first != OnLButtonDown(s, Some(0)).next.first
    ensures OnLButtonDown(s, None).feedback == Raised && OnLButtonDown(s, Some(0)).feedback == Quiet
  {
  }

  /** The preview is the edge the next click creates: a line is drawn
      exactly when a click would commit a two-point edge, and along the same
      points. */
  lemma PreviewIsNextEdge(s: State, found: Option<nat>)
    ensures PreviewLine(s.first, s.mouse).Some? <==>
      OnLButtonDown(s, found).commit.Some? && |OnLButtonDown(s, found).commit.value| == 2
    ensures PreviewLine(s.first, s.mouse).Some? ==>
      var (a, b) := PreviewLine(s.first, s.mouse).value;
      OnLButtonDown(s, found).commit == Some([a, b])
  {
    if s.first.valid && s.mouse.valid {
      assert PickedPoints(s.first, s.mouse) == [s.first.position, s.mouse.position];
    }
  }

  /** After activation or a cancel the tool starts over: moving picks with
      no reference, the next click draws nothing, takes the picked point as
      first point, and the status asks for the end point exactly when that
      point is valid. */
  lemma StartOverAfterCancel(s: State, reason: int, pick: Picker, found: Option<nat>)
    ensures var restarted := OnMouseMove(OnCancel(s, reason), pick);
      var clicked := OnLButtonDown(restarted, found);
      && restarted.mouse == pick(None)
      && clicked.commit.None? && clicked.next.first == pick(None)
      && (LineStatusText(clicked.next.first) == "Select end point." <==> pick(None).valid)
    ensures var clicked := OnLButtonDown(OnMouseMove(Activate(), pick), found);
      clicked.commit.None? && clicked.next.first == pick(None)
  {
  }

  datatype Event = MouseMove(pick: Picker) | Click(found: Option<nat>) | Cancel(reason: int)

  function Apply(s: State, e: Event): State {
    match e
    case MouseMove(pick) => OnMouseMove(s, pick)
    case Click(found) => OnLButtonDown(s, found).next
    case Cancel(reason) => OnCancel(s, reason)
  }

  function Run(s: State, es: seq<Event>): State
    decreases |es|
  {
    if es == [] then s else Run(Apply(s, es[0]), es[1..])
  }

  /** Moving the mouse never picks or drops the first point: a tool with no
      first point stays without one until a click. */
  lemma {:induction false} MovesKeepFirst(s: State, es: seq<Event>)
    requires forall i :: 0 <= i < |es| ==> es[i].MouseMove?
    ensures Run(s, es).first == s.first
    decreases |es|
  {
    if es != [] {
      MovesKeepFirst(Apply(s, es[0]), es[1..]);
    }
  }
}

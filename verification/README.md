# Point-picking tools and inference locking, modelled in Dafny

This project models the interactive tools of the SketchUp Ruby API tutorials
and examples. Each tool is a small, sequential, event-driven state machine. The
host calls it on mouse moves, button presses and releases, key presses,
measurement-bar (VCB) text entry, cancel and deactivation. The tools are:

- the click-click `LineTool` of the custom-tool example and tutorial (one
  model: the two files hold the same code);
- the press-drag-release `LineTool`;
- the inference-lock `LineTool` with its `InferenceLockHelper`;
- the `SphereTool`;
- the `ComponentMoveTool` with in-tool selection.

Each tool's state is an immutable record: the picked first point, the mouse
point, the press position, the inference-lock state, and the selection and
operation flags where the tool has them. Each handler is a pure function. It
returns the next state, what it asked the host to build (an edge's points, a
sphere, an operation call, a translation) and what it showed the user.

Host services are parameters:
- `InputPoint#pick` is a function from the optional reference InputPoint to
  the picked InputPoint.
- `text.to_l` is an `Option<real>`, None when it raises.
- `add_line` + `find_faces` is the face count they report, an `Option<nat>`
  with None for the host's nil. The press-drag-release and inference-lock
  tools read nil as 0; the click-click tool does not guard it.
- The pick helper's best entity is an `Option<Entity>`.
- The Euclidean length of the typed-entry direction is a real the host measures.
  The typed-entry handlers need only that it is positive for a non-zero
  direction. In an event sequence the host's measurement is a function that
  satisfies `Geometry.MeasuresLength` for every vector: the length squared is
  the dot product, the length is not negative, and it is positive for every
  non-zero vector.

Model space uses exact real coordinates. Screen positions are integer pairs.
The 10-pixel drag test is `dx² + dy² > 100`, and `Geometry.IsDragMatchesDistance`
proves that this is the same test as `distance > 10`.

Files: `options.dfy`, `geometry.dfy`, `host.dfy` (InputPoint, axes,
feedback), `inference_lock.dfy`, `picking.dfy` (helpers the tools share),
`custom_tool.dfy`, `drag_tool.dfy`, `lock_tool.dfy`, `sphere_tool.dfy`,
`move_tool.dfy`.

Behaviours of the code worth noting:
- `onCancel` of the move tool resets it but neither commits nor aborts the
  open operation, and `in_operation` stays set; only `deactivate` aborts
  (`ComponentMoveTool.CancelLeavesOperationOpen`).
- Pressing the same arrow key twice ends with no lock at all, even when a
  Shift lock was on the view before the first press
  (`InferenceLock.ArrowTwiceToggles`).
- Only the sphere tool rejects a typed zero. The line tools place the end
  point at distance zero and request an edge from the first point to itself,
  as a click on the first point without moving does. The model takes the
  host's `add_line` to return an edge for that request (see "## Left out").
- The sphere tool computes a tangent point from the typed radius and never
  uses it: the sphere always passes through the mouse point
  (`SphereTool.TypedRadiusIgnored`).
- The click-click tool compares the face count with 0 without reading nil
  as 0. On a nil count the click raises after the edge is added, and the
  first point stays where it was instead of chaining from the clicked point
  (`CustomTool.NilFaceCountIsNotZero`). The press-drag-release tool chains
  in the same case (`PressDragTool.PressAgreesWithClick`).
- Drag releases do not check for a first point or an open move.
  `PressDragTool.ReleaseAfterResetRequestsOnePointEdge` shows a one-point edge
  request, and `ComponentMoveTool.ReleaseCommitsWithoutOperation` shows a
  commit with no operation open.

Handlers that raise a Ruby exception before changing any state end with the
feedback `Raised`, and the state is left unchanged. This happens when a
typed entry finds fewer than two picked points (`picked_points[1]` is nil).
It happens when the first point and the mouse point are at the same position,
so that the typed direction is the zero vector: the model assumes that the
host's `offset` and `length=` refuse a zero-length vector. It happens when
`create_sphere` finds no mouse point. The one handler that raises after a
change is the click-click tool's click on a nil face count: the edge has been
added and is reported, and the tool's own state is left unchanged.

## Model

| member | source | states |
|---|---|---|
| `InferenceLock.AxisFor` | examples/05_tool_inference_lock/ex_tool_inference_lock/inference_lock_helper.rb:79-86 | RIGHT, LEFT and UP select the model's x, y and z axes; no other key selects an axis |
| `InferenceLock.LineLock` | examples/05_tool_inference_lock/ex_tool_inference_lock/inference_lock_helper.rb:110-113 | the view lock for a line runs from the line's anchor along its direction: it starts at the anchor, and its end minus its start is the direction |
| `InferenceLock.Unlock` | examples/05_tool_inference_lock/ex_tool_inference_lock/inference_lock_helper.rb:50-54 | after `unlock` there is no axis lock and the view is unlocked; the lock invariant holds |
| `InferenceLock.UnlockAxis` | examples/05_tool_inference_lock/ex_tool_inference_lock/inference_lock_helper.rb:92-100 | without an axis lock nothing changes (a Shift lock is kept); with one, it and the view lock are dropped |
| `InferenceLock.LockInferenceAxis` | examples/05_tool_inference_lock/ex_tool_inference_lock/inference_lock_helper.rb:106-114 | locking the held line again unlocks everything; any other line becomes the held lock and the view is locked to it; afterwards the lock invariant holds whatever the state before |
| `InferenceLock.TryLockConstraint` | examples/05_tool_inference_lock/ex_tool_inference_lock/inference_lock_helper.rb:63-68 | the axis lock is never changed; nothing happens while an axis lock is held or the active point is invalid; otherwise the view is locked to the active point |
| `InferenceLock.TryLockAxis` | examples/05_tool_inference_lock/ex_tool_inference_lock/inference_lock_helper.rb:76-87 | no change without a valid reference or for a non-arrow key; otherwise, if the arrow's line through the reference was held, no line is held and the view is unlocked, and if not, that line is held and the view is locked to it |
| `InferenceLock.OnKeyDown` | examples/05_tool_inference_lock/ex_tool_inference_lock/inference_lock_helper.rb:23-29 | the constrain key goes to the constraint lock and every other key to the axis lock; unrecognised keys change nothing; the lock invariant is preserved |
| `InferenceLock.OnKeyUp` | examples/05_tool_inference_lock/ex_tool_inference_lock/inference_lock_helper.rb:38-44 | only releasing the constrain key with no axis lock held changes anything, and then it unlocks the view; the axis lock is kept |
| `InferenceLock.ArrowTwiceToggles` | examples/05_tool_inference_lock/ex_tool_inference_lock/inference_lock_helper.rb:106-107 | pressing the same arrow twice with the same reference ends with no lock and an unlocked view, or with that axis locked when it was held to begin with |
| `InferenceLock.ArrowReplacesLock` | examples/05_tool_inference_lock/ex_tool_inference_lock/inference_lock_helper.rb:109-113 | an arrow whose line differs from the held one relocks to the new line from the reference to reference+axis |
| `InferenceLock.DistinctArrowsDistinctLines` | examples/05_tool_inference_lock/ex_tool_inference_lock/inference_lock_helper.rb:79-86 | with distinct axes, two different arrow keys give different lines, so switching arrows replaces the lock rather than toggling it |
| `InferenceLock.ArrowWithoutReferenceIsNoOp` | examples/05_tool_inference_lock/ex_tool_inference_lock/inference_lock_helper.rb:77 | with an invalid reference point every non-constrain key is a no-op |
| `InferenceLock.ConstrainKeyDown` | examples/05_tool_inference_lock/ex_tool_inference_lock/inference_lock_helper.rb:24-25 | the constrain key is a no-op while an axis is locked or the active point is invalid, and otherwise locks the view to the active point |
| `InferenceLock.UnlockIdempotent` | examples/05_tool_inference_lock/ex_tool_inference_lock/inference_lock_helper.rb:50-54 | `unlock` twice is `unlock` once, and both forget every lock |
| `InferenceLock.RunKeepsInv` | examples/05_tool_inference_lock/ex_tool_inference_lock/inference_lock_helper.rb:106-114 | over any sequence of key-downs, key-ups and unlocks, a held axis lock is exactly the line the view is locked to |
| `Geometry.PointAlong` | examples/05_tool_inference_lock/ex_tool_inference_lock/main.rb:119-120 | with a non-zero measured length, typing exactly that length lands on the pointed-at point and typing zero stays at the origin |
| `Geometry.PointAlongOnRay` | examples/05_tool_inference_lock/ex_tool_inference_lock/main.rb:119-120 | the typed end point is on the line through the first and mouse points, on the mouse side for a non-negative length and on the other side for a non-positive one, at the typed distance |
| `Geometry.IsDrag` | examples/03_press_drag_release_tool/ex_press_drag_release_tool/main.rb:79 | a drag needs the release somewhere other than the press, and a release more than 10 px away along either screen axis is always a drag |
| `Geometry.IsDragMatchesDistance` | examples/03_press_drag_release_tool/ex_press_drag_release_tool/main.rb:79 | the squared test `dx²+dy² > 100` decides exactly `distance > DRAG_THRESHOLD` for the Euclidean pixel distance |
| `Geometry.IsDragSymmetric` | examples/03_press_drag_release_tool/ex_press_drag_release_tool/main.rb:79 | releasing where the button went down is never a drag; the test does not depend on the order of the two positions |
| `Picking.PickedPoints` | examples/03_press_drag_release_tool/ex_press_drag_release_tool/main.rb:139-144 | at most two points, one per valid InputPoint: the first point leads, the mouse point ends, nothing else is included |
| `Picking.PickReference` | examples/02_custom_tool/ex_custom_tool/main.rb:31-36 | picking uses the first point as reference exactly when one is picked |
| `Picking.PreviewLine` | examples/02_custom_tool/ex_custom_tool/main.rb:110-112 | a preview is drawn iff both the first and mouse points are valid, from the first to the mouse point |
| `Picking.VcbEnabled` | examples/05_tool_inference_lock/ex_tool_inference_lock/main.rb:35-37 | the measurement bar accepts typed values iff the first point is picked; the sphere tool (examples/99_sphere_tool/ex_sphere_tool/main.rb:52-54) and the move tool (examples/99_in_tool_selection/ex_in_tool_selection/main.rb:61-63) use the same guard |
| `Picking.LineStatusText` | examples/03_press_drag_release_tool/ex_press_drag_release_tool/main.rb:120-125 | the status reads 'Select end point.' iff a first point is picked, and 'Select start point.' otherwise |
| `Picking.CoercedFaceCount` | examples/03_press_drag_release_tool/ex_press_drag_release_tool/main.rb:160 | a reported face count is kept and a nil report reads as 0 faces |
| `CustomTool.Activate` | tutorials/02_custom_tool/tut_custom_tool/main.rb:18-31 | activation starts with no first point and no mouse point, so nothing is picked |
| `CustomTool.ResetTool` | examples/02_custom_tool/ex_custom_tool/main.rb:94-97 | reset forgets the first point and keeps the mouse point |
| `CustomTool.OnCancel` | tutorials/02_custom_tool/tut_custom_tool/main.rb:57-60 | cancel for any reason resets: no first point, and the start-point prompt |
| `CustomTool.OnMouseMove` | tutorials/02_custom_tool/tut_custom_tool/main.rb:62-81 | only the mouse point changes; it is picked relative to the first point exactly when one is picked |
| `CustomTool.OnLButtonDown` | examples/02_custom_tool/ex_custom_tool/main.rb:41-58 | an edge is requested iff a first point is picked, through the picked points; on a counted result the tool resets iff that edge closed faces and otherwise the mouse point becomes the first point; a nil count (main.rb:123) raises and leaves the state unchanged |
| `CustomTool.ClickWithoutFirstPicksStart` | tutorials/02_custom_tool/tut_custom_tool/main.rb:85-99 | a click without a first point creates no edge and copies the mouse point into the first point, whatever the face count |
| `CustomTool.ClickWithFirstChainsOrResets` | examples/02_custom_tool/ex_custom_tool/main.rb:45-55 | a click with both points and a counted result draws the edge first-to-mouse, and resets iff faces were closed, else chains from the clicked point |
| `CustomTool.NilFaceCountIsNotZero` | examples/02_custom_tool/ex_custom_tool/main.rb:44-55 | with both points picked, nil and 0 add the same edge, but 0 chains from the clicked point while nil raises (main.rb:123 has no nil-to-0 guard) and keeps the old first point |
| `CustomTool.PreviewIsNextEdge` | examples/02_custom_tool/ex_custom_tool/main.rb:110-126 | a preview line is drawn exactly when the next click would request a two-point edge, and along the same points |
| `CustomTool.StartOverAfterCancel` | tutorials/02_custom_tool/tut_custom_tool/main.rb:18-99 | after activation or a cancel, the next move picks without reference and the next click draws nothing and takes the picked point as first point; the prompt asks for the end point iff that point is valid |
| `CustomTool.MovesKeepFirst` | examples/02_custom_tool/ex_custom_tool/main.rb:31-39 | any run of mouse moves leaves the first point as it was, so an idle tool stays idle until a click |
| `PressDragTool.Activate` | examples/03_press_drag_release_tool/ex_press_drag_release_tool/main.rb:15-24 | activation: nothing picked, press position at the screen origin |
| `PressDragTool.ResetTool` | examples/03_press_drag_release_tool/ex_press_drag_release_tool/main.rb:130-133 | reset clears the first point and nothing else |
| `PressDragTool.OnCancel` | examples/03_press_drag_release_tool/ex_press_drag_release_tool/main.rb:39-42 | cancel clears the first point and keeps the mouse point and press position |
| `PressDragTool.OnMouseMove` | examples/03_press_drag_release_tool/ex_press_drag_release_tool/main.rb:44-57 | only the mouse point changes, picked relative to the first point when one is picked |
| `PressDragTool.CreateEdge` | examples/03_press_drag_release_tool/ex_press_drag_release_tool/main.rb:156-164 | the edge goes through the picked points and the count is the host's count or 0 for nil |
| `PressDragTool.OnLButtonDown` | examples/03_press_drag_release_tool/ex_press_drag_release_tool/main.rb:59-76 | the press position is recorded; an edge only with a first point; reset iff it closed a face, otherwise the mouse point becomes the first point |
| `PressDragTool.OnLButtonUp` | examples/03_press_drag_release_tool/ex_press_drag_release_tool/main.rb:78-91 | beyond 10 px an edge is drawn and the tool resets whatever the face count; at or within 10 px the state is unchanged and nothing is drawn |
| `PressDragTool.DragVersusClick` | examples/03_press_drag_release_tool/ex_press_drag_release_tool/main.rb:59-91 | after any press, a release commits exactly when it is a drag from the press position, and a release at the press position never commits |
| `PressDragTool.PressDragReleaseDrawsEdge` | examples/03_press_drag_release_tool/ex_press_drag_release_tool/main.rb:44-91 | from an idle tool, hovering, pressing, dragging and releasing beyond the threshold draws the edge from the pressed point to the released point, which was picked relative to the pressed one, and leaves the tool idle |
| `PressDragTool.PressAgreesWithClick` | examples/03_press_drag_release_tool/ex_press_drag_release_tool/main.rb:59-76 | a press requests the same edge as a click of the click-click tool; with a counted result, or without a first point, it leaves the same first and mouse points; on nil the press chains from the mouse point while the click raises and keeps its first point |
| `PressDragTool.ReleaseAfterResetRequestsOnePointEdge` | examples/03_press_drag_release_tool/ex_press_drag_release_tool/main.rb:59-90 | after a press anywhere that closes a face and resets the tool, any drag release from it still requests an edge, through the mouse point alone |
| `PressDragTool.ReleaseAfterActivate` | examples/03_press_drag_release_tool/ex_press_drag_release_tool/main.rb:15-90 | straight after activation a release is measured from the screen origin: beyond 10 px it requests an edge through the mouse point alone, within it nothing changes; the first press draws nothing and takes the picked point as first point |
| `PressDragTool.ReleaseAfterCancelRequestsOnePointEdge` | examples/03_press_drag_release_tool/ex_press_drag_release_tool/main.rb:39-91 | a cancel keeps the press position, so a release far from it after a cancel requests an edge through the mouse point alone |
| `InferenceLockTool.Activate` | examples/05_tool_inference_lock/ex_tool_inference_lock/main.rb:16-28 | activation: nothing picked, the press position at the screen origin, and a fresh, unlocked helper; the tool invariant holds |
| `InferenceLockTool.Deactivate` | examples/05_tool_inference_lock/ex_tool_inference_lock/main.rb:30-33 | deactivation always unlocks inference and changes nothing else |
| `InferenceLockTool.ResetTool` | examples/05_tool_inference_lock/ex_tool_inference_lock/main.rb:181-190 | after reset there is no first point and no inference lock |
| `InferenceLockTool.OnCancel` | examples/05_tool_inference_lock/ex_tool_inference_lock/main.rb:48-51 | cancel resets: no first point, no lock; the mouse point and press position are kept |
| `InferenceLockTool.RePick` | examples/05_tool_inference_lock/ex_tool_inference_lock/main.rb:154-164 | re-picking changes only the mouse point, relative to the first point when picked |
| `InferenceLockTool.OnMouseMove` | examples/05_tool_inference_lock/ex_tool_inference_lock/main.rb:63-71 | a mouse move keeps the first point, the lock and the press position, and re-picks the mouse point relative to the first point exactly when one is picked |
| `InferenceLockTool.OnKeyDown` | examples/05_tool_inference_lock/ex_tool_inference_lock/main.rb:53-56 | the helper gets the mouse point as active and the first point as reference, then the mouse point is re-picked; without a first point arrow keys leave the lock alone |
| `InferenceLockTool.OnKeyUp` | examples/05_tool_inference_lock/ex_tool_inference_lock/main.rb:58-61 | the lock is the helper's key-up result, which never changes the axis lock; only the constrain key changes the lock at all; then the mouse point is re-picked |
| `InferenceLockTool.CreateEdge` | examples/05_tool_inference_lock/ex_tool_inference_lock/main.rb:216-229 | every edge drawn leaves inference unlocked, whatever the face count, which is the host's count or 0 for nil |
| `InferenceLockTool.OnLButtonDown` | examples/05_tool_inference_lock/ex_tool_inference_lock/main.rb:73-89 | the press position is recorded and the mouse point kept; the edge branch runs only with a first point, and then unlocks; reset iff faces formed, else the mouse point becomes the first point; without a first point the lock is kept |
| `InferenceLockTool.OnLButtonUp` | examples/05_tool_inference_lock/ex_tool_inference_lock/main.rb:91-96 | beyond 10 px an edge through the picked points is drawn, the first point is cleared and the lock dropped, and nothing else changes; within 10 px nothing changes |
| `InferenceLockTool.OnUserText` | examples/05_tool_inference_lock/ex_tool_inference_lock/main.rb:112-131 | unparsable text shows 'Invalid length' and changes nothing; fewer than two points, or both at one position, raise and change nothing; otherwise the end point goes the typed length along first-to-mouse, the edge is drawn to it, the lock dropped, then reset iff faces formed, else chain from the end point |
| `InferenceLockTool.TypedMeasuredLengthActsAsClick` | examples/05_tool_inference_lock/ex_tool_inference_lock/main.rb:112-131 | with an honest, positive measured length, typing that length draws exactly the edge a click would |
| `InferenceLockTool.TypedLengthFollowsMouseDirection` | examples/05_tool_inference_lock/ex_tool_inference_lock/main.rb:119-120 | with an honest, positive measured length, any typed length lands on the line through the two points, on the mouse side when not negative and on the other side when not positive, at the typed distance |
| `InferenceLockTool.ButtonsAgreeWithPressDragTool` | examples/05_tool_inference_lock/ex_tool_inference_lock/main.rb:73-96 | pressing and releasing request the same edges and leave the same first, mouse and press positions as in the press-drag-release tool |
| `InferenceLockTool.TextWhileVcbDisabled` | examples/05_tool_inference_lock/ex_tool_inference_lock/main.rb:35-37 | while the measurement bar is disabled, typed text draws nothing and changes nothing, and a parsed length raises |
| `InferenceLockTool.RunKeepsInv` | examples/05_tool_inference_lock/ex_tool_inference_lock/main.rb:181-190 | over every event sequence in which the host measures lengths honestly, from any state where it holds, an axis lock is held only while a first point is picked, is anchored at it, and is what the view is locked to |
| `SphereTool.Activate` | examples/99_sphere_tool/ex_sphere_tool/main.rb:11-15 | activation: no centre and no mouse point |
| `SphereTool.ResetTool` | examples/99_sphere_tool/ex_sphere_tool/main.rb:118-121 | reset forgets the centre |
| `SphereTool.OnCancel` | examples/99_sphere_tool/ex_sphere_tool/main.rb:26-29 | cancel forgets the centre |
| `SphereTool.OnMouseMove` | examples/99_sphere_tool/ex_sphere_tool/main.rb:31-40 | only the mouse point changes, picked relative to the centre when one is picked |
| `SphereTool.PickedDistance` | examples/99_sphere_tool/ex_sphere_tool/main.rb:134-140 | the picked distance is 0 unless both points are valid, and centre-to-mouse otherwise |
| `SphereTool.UpdateUi` | examples/99_sphere_tool/ex_sphere_tool/main.rb:106-116 | the label is always 'Radius'; the value is the picked distance with a centre and empty without one; the prompt follows the stage |
| `SphereTool.CreateSphere` | examples/99_sphere_tool/ex_sphere_tool/main.rb:151-173 | with both points a sphere about the centre through the mouse point, then reset; without them it raises and changes nothing |
| `SphereTool.OnLButtonDown` | examples/99_sphere_tool/ex_sphere_tool/main.rb:42-50 | without a centre the mouse point becomes the centre; with one the click is `create_sphere`, so a sphere through the mouse point is created iff that point is valid, and the tool either resets or raises |
| `SphereTool.OnUserText` | examples/99_sphere_tool/ex_sphere_tool/main.rb:56-78 | ignored unless centre and mouse are valid; an unparsable or zero length beeps with 'Invalid length entered.' and changes nothing; a mouse point on the centre raises and changes nothing; otherwise the sphere through the mouse point is created and the tool resets |
| `SphereTool.TypedRadiusIgnored` | examples/99_sphere_tool/ex_sphere_tool/main.rb:70-75 | any two accepted typed radii create the same sphere, the one a click creates: the tangent point is never used |
| `SphereTool.NoChaining` | examples/99_sphere_tool/ex_sphere_tool/main.rb:172 | every created sphere leaves the tool without a centre |
| `SphereTool.TextWhileVcbDisabled` | examples/99_sphere_tool/ex_sphere_tool/main.rb:52-58 | while the measurement bar is disabled, typed text is ignored without feedback |
| `SphereTool.StartOverAfterCancel` | examples/99_sphere_tool/ex_sphere_tool/main.rb:11-78 | after activation or a cancel, moving picks without reference, typed text is ignored, the prompt asks for a centre with an empty measurement bar, and the next click draws nothing and takes the picked point as centre |
| `SphereTool.TwoClicksCreateSphere` | examples/99_sphere_tool/ex_sphere_tool/main.rb:31-173 | from the first stage, the bar is empty; after the centre click and a move, it shows the host distance centre-to-mouse; the second click creates the sphere about that centre through that point, so its radius is the shown value, and the bar is empty again |
| `ComponentMoveTool.ValidSelection` | examples/99_in_tool_selection/ex_in_tool_selection/main.rb:219-223 | a selection is usable iff it is exactly one component instance |
| `ComponentMoveTool.ValidEntity` | examples/99_in_tool_selection/ex_in_tool_selection/main.rb:199-216 | only component instances are movable; groups, faces, edges and other entities are refused |
| `ComponentMoveTool.Initialize` | examples/99_in_tool_selection/ex_in_tool_selection/main.rb:15-49 | the preselection is kept iff it is exactly one component instance, else cleared; `preselected` iff something remained; no start or mouse point, the press position at the origin, no last move position, no move, no lock, nothing hovered |
| `ComponentMoveTool.Deactivate` | examples/99_in_tool_selection/ex_in_tool_selection/main.rb:55-59 | deactivation unlocks and aborts the operation iff `in_operation` is set, leaving the flag itself unchanged |
| `ComponentMoveTool.ResetTool` | examples/99_in_tool_selection/ex_in_tool_selection/main.rb:331-339 | reset clears the start point, the lock and both selections and sets `preselected` false; the operation flag, mouse point, move origin, press position and hover fields are kept |
| `ComponentMoveTool.OnCancel` | examples/99_in_tool_selection/ex_in_tool_selection/main.rb:74-77 | cancel resets the tool: no start point, no lock, both selections empty, no preselection; `in_operation`, the mouse point, the move origin, the press position and the hover fields are kept |
| `ComponentMoveTool.TrySelectEntity` | examples/99_in_tool_selection/ex_in_tool_selection/main.rb:226-237 | the host selection becomes the hovered entity iff it is a component instance, else empty; the validity flag changes only when something is hovered; nothing else changes |
| `ComponentMoveTool.DoMove` | examples/99_in_tool_selection/ex_in_tool_selection/main.rb:269-277 | before any move nothing happens; otherwise the selection is moved by the displacement since the last position, which then becomes the mouse position |
| `ComponentMoveTool.PickMousePosition` | examples/99_in_tool_selection/ex_in_tool_selection/main.rb:293-311 | re-picks the mouse point and, only during the move stage, translates the selection to follow it; only the mouse point and the move origin change |
| `ComponentMoveTool.OnMouseMove` | examples/99_in_tool_selection/ex_in_tool_selection/main.rb:89-97 | with a tool selection the move is a plain re-pick; at the selection stage the host selection becomes the hovered entity iff movable, the validity flag follows it when something is hovered, and nothing but the mouse point, move origin, host selection and hover fields changes; no operation call |
| `ComponentMoveTool.OnKeyDown` | examples/99_in_tool_selection/ex_in_tool_selection/main.rb:79-82 | the helper's key-down with the mouse as active and start point as reference, followed by the re-pick that moves the selection during the move stage |
| `ComponentMoveTool.OnKeyUp` | examples/99_in_tool_selection/ex_in_tool_selection/main.rb:84-87 | the helper's key-up, followed by the re-pick that moves the selection during the move stage |
| `ComponentMoveTool.StartMove` | examples/99_in_tool_selection/ex_in_tool_selection/main.rb:240-265 | the start point is fixed at the mouse position, an operation is started and `in_operation` set, the move origin is the mouse position; nothing else changes |
| `ComponentMoveTool.EndMove` | examples/99_in_tool_selection/ex_in_tool_selection/main.rb:280-291 | commits, clears `in_operation`, the start point and the lock; the selection and preselection are kept iff the tool was activated with a preselection; the mouse, press and hover fields are untouched |
| `ComponentMoveTool.OnLButtonDown` | examples/99_in_tool_selection/ex_in_tool_selection/main.rb:99-123 | with nothing selected anywhere only the press position changes; otherwise an empty tool selection adopts the host's, and the click is `start_move` on it without a start point and `end_move` with one |
| `ComponentMoveTool.OnLButtonUp` | examples/99_in_tool_selection/ex_in_tool_selection/main.rb:125-129 | beyond 10 px the release is `end_move` (commit) whatever the state; within 10 px nothing changes |
| `ComponentMoveTool.OnUserText` | examples/99_in_tool_selection/ex_in_tool_selection/main.rb:156-172 | unparsable text shows 'Invalid length' and changes nothing; fewer than two points, or both at one position, raise and change nothing; otherwise the mouse point goes the typed distance along start-to-mouse, the selection moves there, the move is committed, the selection is kept iff the tool started with a preselection, and the press and hover fields are untouched |
| `ComponentMoveTool.OnSetCursor` | examples/99_in_tool_selection/ex_in_tool_selection/main.rb:139-154 | the invalid cursor iff no start point is picked and a non-movable entity is hovered |
| `ComponentMoveTool.HoverCursor` | examples/99_in_tool_selection/ex_in_tool_selection/main.rb:139-154 | at the selection stage, after a mouse move the cursor is invalid exactly over an entity the tool refuses, and never over empty space |
| `ComponentMoveTool.StatusText` | examples/99_in_tool_selection/ex_in_tool_selection/main.rb:313-329 | one prompt per stage: select a component, then a start point, then an end point |
| `ComponentMoveTool.StatusUnderInv` | examples/99_in_tool_selection/ex_in_tool_selection/main.rb:313-329 | under the tool invariant the end-point prompt means a move operation is open from a known position; a fresh tool asks for a start point iff it kept a preselection |
| `ComponentMoveTool.ReleaseCommitsWithoutOperation` | examples/99_in_tool_selection/ex_in_tool_selection/main.rb:99-128 | a click anywhere with nothing selected changes only the press position and opens nothing, yet any drag release from it commits |
| `ComponentMoveTool.CancelLeavesOperationOpen` | examples/99_in_tool_selection/ex_in_tool_selection/main.rb:74-77 | cancelling during a move leaves the operation recorded open, and a later deactivation aborts it |
| `ComponentMoveTool.HoverThenClick` | examples/99_in_tool_selection/ex_in_tool_selection/main.rb:89-123 | at the selection stage, hovering a movable entity and clicking starts a move on exactly that entity from the picked point; hovering anything else and clicking stays at the selection stage |
| `ComponentMoveTool.TextWhileVcbDisabled` | examples/99_in_tool_selection/ex_in_tool_selection/main.rb:61-63 | while the measurement bar is disabled, typed text changes nothing and makes no operation call, and a parsed length raises |
| `ComponentMoveTool.RunKeepsInv` | examples/99_in_tool_selection/ex_in_tool_selection/main.rb:240-265 | over every event sequence in which the host measures lengths honestly, from any state where it holds, a start point is picked only while the operation is recorded open over a non-empty selection, and an axis lock only while a start point anchors it |
| `ComponentMoveTool.MovesSumToDisplacement` | examples/99_in_tool_selection/ex_in_tool_selection/main.rb:79-97 | during a move, the translations applied by mouse moves and key presses and releases sum to the displacement from the move origin to the final mouse position |

## Left out

- Drawing, tooltips, line widths and stipples, `getExtents`, `view.invalidate`, `resume` and `suspend`: they only redraw or refresh the status bar. The preview guard is kept as `Picking.PreviewLine`.
- The line tools' `onSetCursor`: it always sets the same pencil cursor, so it has no choice to model.
- The `deactivate` of the click-click, press-drag-release and sphere tools: it only invalidates the view.
- The measurement-bar values the line tools and the move tool show (`@distance`, the 'Length' and 'Distance' labels, the move tool's `@vcb_cache`): they are display only. The sphere tool's VCB contents are modelled.
- `@mouse_position`, the screen position remembered for re-picking: it is absorbed into the pick oracle each handler receives.
- The helper's unused `@mouse_x` and `@mouse_y`, and the `reference_ip = active_ip` default: every tool passes both points explicitly.
- The outer `rescue` in the inference-lock tool's `onUserText`: it calls a misspelled `Ui` and ends in a NameError, so the model only records the exception as `Raised`.
- Point3d tolerance: `line == @axis_lock` compares host points with a tolerance; the model compares exactly.
- Float geometry and the kernel: `add_line`, `find_faces`, circles, faces, follow-me, `transform_entities` and `start/commit/abort_operation`. Each is an oracle answer or a returned request (edge points, `Sphere`, `Operation`, translation).
- What the host does with a one-point or zero-length `add_line` (a release after a reset, a click on the first point, a typed 0) or a zero-radius sphere: that is host behaviour behind the oracles. The model assumes `add_line` returns an edge. Were it to return nil, `edge.find_faces` would raise before the operation is committed, the helper unlocked, and the tool reset or chained, and the model does not show that.
- The view's lock when a tool is activated: the model assumes that it is unlocked.
- examples/99_in_tool_selection/ex_in_tool_selection/inference_lock_helper.rb is not part of this model. The move tool is modelled with the inference-lock example's helper.
- Extension registration, menu wiring, `load_tutorials.rb`, the fixed hello-cube/sphere/donut scripts and the licensing example: they make no decisions.
- InferenceLockTool.RePick: the model does not check that the pick oracle honours the view's inference lock, because snapping is host behaviour.
- SphereTool.OnUserText: the source's `radius == 0.to_l` and the host's refusal of a zero vector compare lengths within SketchUp's tolerance; the model compares exactly, so a typed length or a mouse offset below the tolerance is not treated as zero.
- InferenceLockTool.OnUserText and ComponentMoveTool.OnUserText: the zero-direction test compares the two positions exactly, where the host's vector length uses its tolerance.

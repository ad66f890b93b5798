/** `InferenceLockHelper`: locks a tool's point picking either to the
    constrain key's point (Shift) or to a model axis anchored at the tool's
    reference point (arrow keys), and drives the view's inference lock
    accordingly. The helper's only field is the held axis lock; the view's
    lock is host state that only the helper changes, so both are modelled
    together as one value. */
module InferenceLock {
  import opened Options
  import opened Geometry
  import opened Host

  /** Key codes the helper distinguishes; every other code is `OtherKey`. */
  datatype Key = ConstrainKey | RightKey | LeftKey | UpKey | OtherKey(code: int)

  /** `[reference_ip.position, axis]`, the value held in `@axis_lock`. */
  datatype Line = Line(anchor: Point, direction: Vector)

  /** The view's inference lock: none, `lock_inference(ip)` or
      `lock_inference(ip1, ip2)`. */
  datatype ViewLock = Unlocked | LockedToPoint(at: Point) | LockedToLine(from: Point, to: Point)

  datatype LockState = LockState(axisLock: Option<Line>, view: ViewLock)

  /** A new helper on a view without an inference lock. */
  const Released := LockState(None, Unlocked)

  /** The view lock that `lock_inference_axis` installs for a line: from the
      anchor to the anchor displaced by the direction, so the locked segment
      starts at the anchor and runs along the direction. */
  function LineLock(line: Line): (v: ViewLock)
    ensures v.LockedToLine? && v.from == line.anchor
    ensures VectorTo(v.from, v.to) == line.direction
  {
    LockedToLine(line.anchor, Offset(line.anchor, line.direction))
  }

  /** A held axis lock is always what the view is locked to. */
  predicate Inv(s: LockState) {
    s.axisLock.Some? ==> s.view == LineLock(s.axisLock.value)
  }

  /** The axis an arrow key selects: RIGHT x, LEFT y, UP z. */
  function AxisFor(key: Key, axes: Axes): (axis: Option<Vector>)
    ensures axis.Some? <==> key in {RightKey, LeftKey, UpKey}
    ensures key == RightKey ==> axis == Some(axes.xAxis)
    ensures key == LeftKey ==> axis == Some(axes.yAxis)
    ensures key == UpKey ==> axis == Some(axes.zAxis)
  {
    match key
    case RightKey => Some(axes.xAxis)
    case LeftKey => Some(axes.yAxis)
    case UpKey => Some(axes.zAxis)
    case _ => None
  }

  /** `unlock`: drops any axis lock and any view lock. */
  function Unlock(s: LockState): (r: LockState)
    ensures r.axisLock.None? && r.view == Unlocked
    ensures Inv(r)
  {
    Released
  }

  /** `unlock_axis`: only an axis lock is removed; a constrain lock is kept. */
  function UnlockAxis(s: LockState): (r: LockState)
    ensures r.axisLock.None?
    ensures s.axisLock.None? ==> r == s
    ensures s.axisLock.Some? ==> r.view == Unlocked
    ensures Inv(s) ==> Inv(r)
  {
    if s.axisLock.None? then s else Released
  }

  /** `lock_inference_axis`: the same line again unlocks it, any other line
      replaces whatever was locked. The invariant holds afterwards whatever
      held before. */
  function LockInferenceAxis(s: LockState, line: Line): (r: LockState)
    ensures s.axisLock == Some(line) ==> r == Released
    ensures s.axisLock != Some(line) ==> r.axisLock == Some(line) && r.view == LineLock(line)
    ensures Inv(r)
  {
    if s.axisLock == Some(line) then UnlockAxis(s)
    else LockState(Some(line), LineLock(line))
  }

  /** `try_lock_constraint`: locks the view to the active point unless an axis
      lock is held or the active point is invalid. */
  function TryLockConstraint(s: LockState, active: Option<Point>): (r: LockState)
    ensures r.axisLock == s.axisLock
    ensures s.axisLock.Some? || active.None? ==> r == s
    ensures s.axisLock.None? && active.Some? ==> r.view == LockedToPoint(active.value)
    ensures Inv(s) ==> Inv(r)
  {
    if s.axisLock.Some? || active.None? then s
    else s.(view := LockedToPoint(active.value))
  }

  /** `try_lock_axis`: an arrow key with a valid reference point toggles the
      lock to the matching axis through that point; anything else changes
      nothing. */
  function TryLockAxis(s: LockState, key: Key, axes: Axes, reference: Option<Point>): (r: LockState)
    ensures reference.None? || AxisFor(key, axes).None? ==> r == s
    ensures reference.Some? && AxisFor(key, axes).Some? ==>
      var line := Line(reference.value, AxisFor(key, axes).value);
      && (s.axisLock == Some(line) ==> r.axisLock.None? && r.view == Unlocked)
      && (s.axisLock != Some(line) ==> r.axisLock == Some(line) && r.view == LineLock(line))
    ensures Inv(s) ==> Inv(r)
  {
    if reference.None? then s
    else match AxisFor(key, axes)
      case None => s
      case Some(axis) => LockInferenceAxis(s, Line(reference.value, axis))
  }

  /** `on_keydown(key, view, active_ip, reference_ip)`. */
  function OnKeyDown(s: LockState, key: Key, axes: Axes, active: Option<Point>, reference: Option<Point>): (r: LockState)
    ensures key == ConstrainKey ==> r == TryLockConstraint(s, active)
    ensures key != ConstrainKey ==> r == TryLockAxis(s, key, axes, reference)
    ensures key.OtherKey? ==> r == s
    ensures Inv(s) ==> Inv(r)
  {
    if key == ConstrainKey then TryLockConstraint(s, active)
    else TryLockAxis(s, key, axes, reference)
  }

  /** `on_keyup(key, view)`: releasing the constrain key unlocks the view
      unless an axis lock is held; no other key-up changes anything. */
  function OnKeyUp(s: LockState, key: Key): (r: LockState)
    ensures r.axisLock == s.axisLock
    ensures key != ConstrainKey || s.axisLock.Some? ==> r == s
    ensures key == ConstrainKey && s.axisLock.None? ==> r.view == Unlocked
    ensures Inv(s) ==> Inv(r)
  {
    if key != ConstrainKey || s.axisLock.Some? then s
    else s.(view := Unlocked)
  }

  /** Pressing the same arrow key twice with an unchanged reference point ends
      with no axis lock and an unlocked view when the first press locked, and
      with that axis locked when the first press unlocked it. Note the result
      is unlocked even if a constrain lock was on the view before. */
  lemma ArrowTwiceToggles(s: LockState, key: Key, axes: Axes, active: Option<Point>, reference: Option<Point>)
    requires reference.Some? && AxisFor(key, axes).Some?
    ensures var line := Line(reference.value, AxisFor(key, axes).value);
      var twice := OnKeyDown(OnKeyDown(s, key, axes, active, reference), key, axes, active, reference);
      (s.axisLock != Some(line) ==> twice == Released) &&
      (s.axisLock == Some(line) ==> twice == LockState(Some(line), LineLock(line)))
  {
  }

  /** An arrow key whose line differs from the held one relocks the view to
      the new line, anchored at the reference position. */
  lemma ArrowReplacesLock(s: LockState, key: Key, axes: Axes, active: Option<Point>, reference: Option<Point>)
    requires reference.Some? && AxisFor(key, axes).Some?
    requires s.axisLock.Some? && s.axisLock.value != Line(reference.value, AxisFor(key, axes).value)
    ensures OnKeyDown(s, key, axes, active, reference).axisLock == Some(Line(reference.value, AxisFor(key, axes).value))
    ensures OnKeyDown(s, key, axes, active, reference).view ==
      LockedToLine(reference.value, Offset(reference.value, AxisFor(key, axes).value))
  {
  }

  /** Two different arrow keys pick two different lines when the axes are
      distinct, so switching arrows never toggles. */
  lemma DistinctArrowsDistinctLines(k1: Key, k2: Key, axes: Axes, p: Point)
    requires AxisFor(k1, axes).Some? && AxisFor(k2, axes).Some? && k1 != k2
    requires axes.xAxis != axes.yAxis && axes.yAxis != axes.zAxis && axes.xAxis != axes.zAxis
    ensures Line(p, AxisFor(k1, axes).value) != Line(p, AxisFor(k2, axes).value)
  {
  }

  /** With an invalid reference point arrow keys change nothing. */
  lemma ArrowWithoutReferenceIsNoOp(s: LockState, key: Key, axes: Axes, active: Option<Point>)
    requires key != ConstrainKey
    ensures OnKeyDown(s, key, axes, active, None) == s
  {
  }

  /** The constrain key is a no-op while an axis lock is held or the active
      point is invalid, and otherwise locks the view to the active point. */
  lemma ConstrainKeyDown(s: LockState, axes: Axes, active: Option<Point>, reference: Option<Point>)
    ensures s.axisLock.Some? || active.None? ==> OnKeyDown(s, ConstrainKey, axes, active, reference) == s
    ensures s.axisLock.None? && active.Some? ==>
      OnKeyDown(s, ConstrainKey, axes, active, reference) == LockState(None, LockedToPoint(active.value))
  {
  }

  /** `unlock` is idempotent and forgets everything. */
  lemma UnlockIdempotent(s: LockState)
    ensures Unlock(Unlock(s)) == Unlock(s) == Released
  {
  }

  /** The events a tool forwards to the helper. */
  datatype Event =
    | KeyDown(key: Key, active: Option<Point>, reference: Option<Point>)
    | KeyUp(key: Key)
    | Reset

  function Apply(s: LockState, e: Event, axes: Axes): LockState {
    match e
    case KeyDown(key, active, reference) => OnKeyDown(s, key, axes, active, reference)
    case KeyUp(key) => OnKeyUp(s, key)
    case Reset => Unlock(s)
  }

  function Run(s: LockState, es: seq<Event>, axes: Axes): LockState
    decreases |es|
  {
    if es == [] then s else Run(Apply(s, es[0], axes), es[1..], axes)
  }

  /** Whatever keys are pressed and released, a held axis lock is exactly the
      line the view is locked to. */
  lemma {:induction false} RunKeepsInv(s: LockState, es: seq<Event>, axes: Axes)
    requires Inv(s)
    ensures Inv(Run(s, es, axes))
    decreases |es|
  {
    if es != [] {
      var t := Apply(s, es[0], axes);
      assert Inv(t);
      RunKeepsInv(t, es[1..], axes);
    }
  }
}

/** Model-space points and vectors, and integer screen positions.

    Coordinates are exact reals, so `offset` and `vector_to` are exact. The
    Euclidean length of a vector needs a square root, which the model does not
    compute: where a tool needs it the host's measurement is passed in, and
    the tools require it to satisfy `MeasuresLength`. */
module Geometry {

  datatype Point = Point(x: real, y: real, z: real)

  datatype Vector = Vector(x: real, y: real, z: real)

  const Origin := Point(0.0, 0.0, 0.0)

  const ZeroVector := Vector(0.0, 0.0, 0.0)

  /** `point.offset(vector)`: the point displaced by the vector. */
  function Offset(p: Point, v: Vector): Point {
    Point(p.x + v.x, p.y + v.y, p.z + v.z)
  }

  /** `a.vector_to(b)`, also written `b - a`. */
  function VectorTo(a: Point, b: Point): Vector {
    Vector(b.x - a.x, b.y - a.y, b.z - a.z)
  }

  function Plus(u: Vector, v: Vector): Vector {
    Vector(u.x + v.x, u.y + v.y, u.z + v.z)
  }

  function Scale(v: Vector, k: real): Vector {
    Vector(k * v.x, k * v.y, k * v.z)
  }

  function Dot(u: Vector, v: Vector): real {
    u.x * v.x + u.y * v.y + u.z * v.z
  }

  function Cross(u: Vector, v: Vector): Vector {
    Vector(u.y * v.z - u.z * v.y, u.z * v.x - u.x * v.z, u.x * v.y - u.y * v.x)
  }

  /** `d` is the Euclidean length of `v`. */
  predicate IsLength(v: Vector, d: real) {
    d >= 0.0 && d * d == Dot(v, v)
  }

  /** Displacements compose: going a to b and then b to c is going a to c. */
  lemma VectorToChain(a: Point, b: Point, c: Point)
    ensures Plus(VectorTo(a, b), VectorTo(b, c)) == VectorTo(a, c)
    ensures Offset(a, VectorTo(a, b)) == b
  {
  }

  /** What the host promises of the length it reports for `v`: the
      Euclidean length, which is positive for any vector other than the zero
      vector. */
  predicate MeasuresLength(v: Vector, d: real) {
    IsLength(v, d) && (v != ZeroVector ==> d > 0.0)
  }

  /** `length` is the host's `Vector3d#length`: it measures every vector. */
  ghost predicate HostMeasures(length: Vector -> real) {
    forall v :: MeasuresLength(v, length(v))
  }

  /** Two distinct points are joined by a non-zero vector. */
  lemma DistinctPointsNonZero(a: Point, b: Point)
    ensures VectorTo(a, b) == ZeroVector <==> a == b
  {
  }

  /** `origin.offset(origin.vector_to(toward), len)`: the point `len` units
      from `origin` in the direction of `toward`, where `measured` is the
      length of that direction as the host measures it. The host refuses a
      zero-length direction, hence the precondition. Typing exactly the
      measured distance lands on the pointed-at point, and typing zero stays
      at the origin. */
  function PointAlong(origin: Point, toward: Point, len: real, measured: real): (p: Point)
    requires measured != 0.0
    ensures len == measured ==> p == toward
    ensures len == 0.0 ==> p == origin
  {
    assert measured / measured == 1.0;
    Offset(origin, Scale(VectorTo(origin, toward), len / measured))
  }

  /** The point chosen by typed length `len` lies on the line through
      `origin` and `toward` (zero cross product), on the side of `toward` when
      `len` is not negative and on the far side when it is not positive, at distance |len| from `origin`. */
  lemma PointAlongOnRay(origin: Point, toward: Point, len: real, measured: real)
    requires measured > 0.0 && IsLength(VectorTo(origin, toward), measured)
    ensures Cross(VectorTo(origin, PointAlong(origin, toward, len, measured)), VectorTo(origin, toward)) == ZeroVector
    ensures len >= 0.0 ==> Dot(VectorTo(origin, PointAlong(origin, toward, len, measured)), VectorTo(origin, toward)) >= 0.0
    ensures len <= 0.0 ==> Dot(VectorTo(origin, PointAlong(origin, toward, len, measured)), VectorTo(origin, toward)) <= 0.0
    ensures IsLength(VectorTo(origin, PointAlong(origin, toward, len, measured)), if len >= 0.0 then len else -len)
  {
  }

  /** A pixel position in the viewport. */
  datatype ScreenPoint = ScreenPoint(x: int, y: int)

  /** Logical screen pixels beyond which a press followed by a release counts
      as a drag rather than a click. */
  const DragThreshold := 10

  function SquaredScreenDistance(a: ScreenPoint, b: ScreenPoint): int {
    (b.x - a.x) * (b.x - a.x) + (b.y - a.y) * (b.y - a.y)
  }

  /** `mouse_down.distance([x, y]) > DRAG_THRESHOLD`, compared on squares. A
      drag needs the button to come up somewhere else, and coming up more
      than the threshold away along either screen axis is always a drag. */
  function IsDrag(down: ScreenPoint, up: ScreenPoint): (drag: bool)
    ensures drag ==> up != down
    ensures up.x - down.x > DragThreshold || down.x - up.x > DragThreshold ==> drag
    ensures up.y - down.y > DragThreshold || down.y - up.y > DragThreshold ==> drag
  {
    SquareBeyondThreshold(up.x - down.x);
    SquareBeyondThreshold(up.y - down.y);
    SquaredScreenDistance(down, up) > DragThreshold * DragThreshold
  }

  /** A coordinate difference beyond the threshold has a square beyond the
      threshold's square. */
  lemma SquareBeyondThreshold(n: int)
    ensures n * n >= 0
    ensures n > DragThreshold || -n > DragThreshold ==> n * n > DragThreshold * DragThreshold
  {
  }

  /** Comparing squares decides exactly what comparing the Euclidean pixel
      distance `d` with the threshold decides. */
  lemma IsDragMatchesDistance(down: ScreenPoint, up: ScreenPoint, d: real)
    requires d >= 0.0
    ensures d * d == SquaredScreenDistance(down, up) as real ==> (IsDrag(down, up) <==> d > DragThreshold as real)
  {
    assert DragThreshold as real == 10.0;
    if d * d != SquaredScreenDistance(down, up) as real {
    } else if d > 10.0 {
      assert d * d > d * 10.0;
      assert d * 10.0 > 100.0;
    } else {
      assert d * d <= d * 10.0;
      assert d * 10.0 <= 100.0;
    }
  }

  /** A release where the button went down is never a drag, and the distance
      is the same measured either way. */
  lemma IsDragSymmetric(a: ScreenPoint, b: ScreenPoint)
    ensures !IsDrag(a, a)
    ensures IsDrag(a, b) <==> IsDrag(b, a)
  {
  }
}

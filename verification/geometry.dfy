/** Points and rectangles as Go's image package has them. */
module Geometry {

  /** image.Point */
  datatype Point = Point(x: int, y: int) {
    function Sub(q: Point): Point { Point(x - q.x, y - q.y) }
  }

  /** image.Rectangle: Min is inclusive, Max is exclusive. */
  datatype Rect = Rect(min: Point, max: Point) {
    predicate Canonical() { min.x <= max.x && min.y <= max.y }
    function Dx(): int { max.x - min.x }
    function Dy(): int { max.y - min.y }
    /** image.Point.In */
    predicate Contains(p: Point) { min.x <= p.x < max.x && min.y <= p.y < max.y }
    /** image.Rectangle.Add */
    function Add(d: Point): Rect { Rect(Point(min.x + d.x, min.y + d.y), Point(max.x + d.x, max.y + d.y)) }
  }

  /** The bounds of an image: Min is never past Max, so both sides are non-negative. */
  type Bounds = r: Rect | r.Canonical() witness Rect(Point(0, 0), Point(0, 0))

  /** image.Rect(0, 0, w, h) */
  function Origin(w: nat, h: nat): (r: Bounds)
    ensures r.min == Point(0, 0) && r.Dx() == w && r.Dy() == h
  {
    Rect(Point(0, 0), Point(w, h))
  }

  /** The points a rectangle covers. */
  function Points(r: Rect): (s: set<Point>)
    ensures forall p :: p in s <==> r.Contains(p)
  {
    var s := set x, y | r.min.x <= x < r.max.x && r.min.y <= y < r.max.y :: Point(x, y);
    assert forall p :: r.Contains(p) ==> p == Point(p.x, p.y) && p in s;
    s
  }

  function Min(a: int, b: int): int { if b < a then b else a }
}

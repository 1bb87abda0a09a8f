/** Integer screen geometry with pygame's conventions. */
module Geometry {

  datatype Point = Point(x: int, y: int)

  /** A pygame `Rect`: top-left corner and size. */
  datatype Rect = Rect(left: int, top: int, width: int, height: int)

  /** `Rect.collidepoint`: the left and top edges are inside, the right and bottom edges are not. */
  predicate Contains(r: Rect, p: Point) {
    r.left <= p.x < r.left + r.width && r.top <= p.y < r.top + r.height
  }

  /** C integer division by two, which truncates toward zero (pygame computes rect centres in C). */
  function Half(n: int): (h: int)
    ensures n >= 0 ==> 0 <= h && 2 * h <= n < 2 * h + 2
    ensures n < 0 ==> h <= 0 && 2 * h - 2 < n <= 2 * h
  {
    if n >= 0 then n / 2 else -((-n) / 2)
  }

  function CenterX(r: Rect): int { r.left + Half(r.width) }

  function CenterY(r: Rect): int { r.top + Half(r.height) }

  /** Assigning `rect.center`: the rectangle moves, its size stays. */
  function WithCenter(r: Rect, cx: int, cy: int): (r': Rect)
    ensures CenterX(r') == cx && CenterY(r') == cy
    ensures r'.width == r.width && r'.height == r.height
  {
    Rect(cx - Half(r.width), cy - Half(r.height), r.width, r.height)
  }

  /** Python's `int()` on a float: truncation toward zero. */
  function Trunc(v: real): (n: int)
    ensures v >= 0.0 ==> n as real <= v < n as real + 1.0
    ensures v < 0.0 ==> n as real - 1.0 < v <= n as real
  {
    if v >= 0.0 then v.Floor else -((-v).Floor)
  }
}

/**
 * Pixel positions, OpenCV rectangles and C++ integer division, as the tracker
 * uses them.
 */
module Geometry {

  /** A pixel position: `x` is the column, `y` the row (which grows downwards). */
  datatype Point = Point(x: int, y: int)

  /** `cv::Rect`: the top-left corner and the size. */
  datatype Rect = Rect(x: int, y: int, width: int, height: int)

  /** `cv::Rect::contains`: the left and top edges belong to the rectangle, the right and bottom ones do not. */
  predicate Contains(r: Rect, p: Point)
  {
    r.x <= p.x < r.x + r.width && r.y <= p.y < r.y + r.height
  }

  /** The rectangle lies within a `res` by `res` image. */
  predicate InsideImage(r: Rect, res: int)
  {
    0 <= r.x && 0 <= r.y && 0 <= r.width && 0 <= r.height && r.x + r.width <= res && r.y + r.height <= res
  }

  /** C++ `a / b` on `int`: the quotient truncated toward zero. */
  function TruncDiv(a: int, b: int): (q: int)
    requires b > 0
    ensures a >= 0 ==> 0 <= q && 0 <= a - q * b < b
    ensures a < 0 ==> q <= 0 && -b < a - q * b <= 0
  {
    if a >= 0 then a / b else -((-a) / b)
  }

  function Min(a: int, b: int): (m: int)
    ensures m <= a && m <= b && (m == a || m == b)
  {
    if a <= b then a else b
  }

  function Max(a: int, b: int): (m: int)
    ensures a <= m && b <= m && (m == a || m == b)
  {
    if a >= b then a else b
  }
}

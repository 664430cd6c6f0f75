/** Rectangles as both ocr.py and coordinate_manage.py lay them out. */
module Geometry {

  /** An axis-aligned rectangle `[x_min, x_max, y_min, y_max]`, in pixels. */
  datatype Rect = Rect(left: int, right: int, top: int, bottom: int)

  /** The corners are in order: left edge not right of the right edge, top not below bottom. */
  predicate Ordered(r: Rect) {
    r.left <= r.right && r.top <= r.bottom
  }

  function Abs(x: int): nat {
    if x < 0 then -x else x
  }
}

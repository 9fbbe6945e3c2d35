/** Layout-space geometry used by the text layout and the rectangle builders:
    points, sizes and rectangles with real-valued coordinates (the renderer's
    f32 units, taken here without rounding). */
module Geometry {

  /** A point in layout space. */
  datatype LayoutPoint = LayoutPoint(x: real, y: real)

  /** A width and a height in layout space. */
  datatype LayoutSize = LayoutSize(width: real, height: real)

  /** A rectangle given by its origin (top-left corner) and its size. */
  datatype LayoutRect = LayoutRect(origin: LayoutPoint, size: LayoutSize) {

    /** The far corner: the origin moved by the size. */
    function Max(): (p: LayoutPoint)
      ensures p.x - origin.x == size.width && p.y - origin.y == size.height
    {
      LayoutPoint(origin.x + size.width, origin.y + size.height)
    }
  }

  /** The larger of two reals, as `f32::max` for values that are not NaN. */
  function MaxReal(a: real, b: real): (m: real)
    ensures m >= a && m >= b
    ensures m == a || m == b
  {
    if a >= b then a else b
  }
}

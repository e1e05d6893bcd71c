/** Screen rectangles as the compositor sees them: the Android `Rect`,
    with the right and bottom edges exclusive, so that the width is
    `right - left` and the height `bottom - top`. */
module Geometry {

  datatype Rect = Rect(left: int, top: int, right: int, bottom: int) {

    function Width(): int { right - left }

    function Height(): int { bottom - top }

    /** `Rect::offsetBy`: the same rectangle moved by (dx, dy). */
    function OffsetBy(dx: int, dy: int): (r: Rect)
      ensures r.Width() == Width() && r.Height() == Height()
      ensures r.left == left + dx && r.top == top + dy
    {
      Rect(left + dx, top + dy, right + dx, bottom + dy)
    }
  }
}

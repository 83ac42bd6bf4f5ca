/** Points, sizes and rectangles of the integer plane (src/core/geometry/rectangle.cpp).
    Coordinates are unbounded integers and sizes may be zero or negative, as the C++ type allows. */
module Geometry {

  datatype Point = Point(x: int, y: int)

  datatype Size = Size(width: int, height: int)

  datatype Rectangle = Rectangle(topLeft: Point, size: Size) {
    function Left(): int { topLeft.x }

    function Top(): int { topLeft.y }

    function Right(): int { topLeft.x + size.width }

    function Bottom(): int { topLeft.y + size.height }

    predicate ContainsPoint(p: Point) {
      && size.width != 0 && size.height != 0
      && Left() <= p.x < Right() && Top() <= p.y < Bottom()
    }

    predicate Contains(r: Rectangle) {
      Left() <= r.Left() && r.Right() <= Right() && Top() <= r.Top() && r.Bottom() <= Bottom()
    }

    predicate Overlaps(r: Rectangle) {
      !(|| r.Left() >= Right()
        || r.Right() <= Left()
        || r.Top() >= Bottom()
        || r.Bottom() <= Top()
        || size.width == 0
        || size.height == 0
        || r.size.width == 0
        || r.size.height == 0)
    }

    predicate NonEmpty() { size.width > 0 && size.height > 0 }

    /** The result is the default rectangle at the origin when nothing is shared; otherwise it is
        the rectangle holding exactly the shared pixels. */
    function IntersectionWith(r: Rectangle): (i: Rectangle)
      ensures forall p: Point :: i.ContainsPoint(p) <==> ContainsPoint(p) && r.ContainsPoint(p)
      ensures i == EMPTY_RECTANGLE || (i.NonEmpty() && Contains(i) && r.Contains(i))
    {
      var maxLeft := Max(Left(), r.Left());
      var minRight := Min(Right(), r.Right());
      var maxTop := Max(Top(), r.Top());
      var minBottom := Min(Bottom(), r.Bottom());
      if maxLeft < minRight && maxTop < minBottom
      then Rectangle(Point(maxLeft, maxTop), Size(minRight - maxLeft, minBottom - maxTop))
      else EMPTY_RECTANGLE
    }
  }

  const EMPTY_RECTANGLE := Rectangle(Point(0, 0), Size(0, 0))

  /** For rectangles with pixels, containing is containing every pixel, and overlapping is sharing one. */
  lemma ContainsPixels(a: Rectangle, b: Rectangle)
    requires a.NonEmpty() && b.NonEmpty()
    ensures a.Contains(b) <==> forall p: Point :: b.ContainsPoint(p) ==> a.ContainsPoint(p)
    ensures a.Overlaps(b) <==> exists p: Point :: a.ContainsPoint(p) && b.ContainsPoint(p)
  {
    var first, last := Point(b.Left(), b.Top()), Point(b.Right() - 1, b.Bottom() - 1);
    assert b.ContainsPoint(first) && b.ContainsPoint(last);
    if a.Overlaps(b) {
      var shared := Point(Max(a.Left(), b.Left()), Max(a.Top(), b.Top()));
      assert a.ContainsPoint(shared) && b.ContainsPoint(shared);
    }
  }

  function Max(a: int, b: int): int { if a < b then b else a }

  function Min(a: int, b: int): int { if b < a then b else a }
}

/**
 * The geometry kernel: integer points, axis-aligned bounding rectangles and
 * the four margin-parameterised predicates every placement decision rests on.
 */
module Geometry {

  /** Width and height of the square canvas. */
  const BOUND: int := 100

  /** Minimum gap between two shapes, and between a shape and the canvas edge. */
  const MARGIN: int := 2

  datatype Point = Point(x: int, y: int)

  /**
   * A rectangle by its left-bottom and right-top corners.  The width and
   * height fields are stored alongside; no predicate below reads them.
   */
  datatype Rectangle = Rectangle(leftBottom: Point, rightTop: Point, width: int, height: int)
  {
    /** This rectangle's edges are inset from other's by at least margin on all four sides. */
    predicate IsInside(other: Rectangle, margin: int)
    {
      && leftBottom.x >= other.leftBottom.x + margin
      && leftBottom.y >= other.leftBottom.y + margin
      && rightTop.x <= other.rightTop.x - margin
      && rightTop.y <= other.rightTop.y - margin
    }

    /** The two rectangles, each widened by margin, meet on both axes. */
    predicate IsOverlapped(other: Rectangle, margin: int)
    {
      && leftBottom.x <= other.rightTop.x + margin
      && rightTop.x + margin >= other.leftBottom.x
      && leftBottom.y <= other.rightTop.y + margin
      && rightTop.y + margin >= other.leftBottom.y
    }

    /** This rectangle's left edge lies strictly to the right of other's right edge. */
    predicate IsEastOf(other: Rectangle)
    {
      leftBottom.x > other.rightTop.x
    }

    /** This rectangle's bottom edge lies strictly above other's top edge. */
    predicate IsNorthOf(other: Rectangle)
    {
      leftBottom.y > other.rightTop.y
    }

    /** The corners are in order on both axes. */
    predicate WellFormed()
    {
      leftBottom.x <= rightTop.x && leftBottom.y <= rightTop.y
    }
  }

  /** The four-argument constructor: right-top corner at (x + width, y + height). */
  function Make(x: int, y: int, width: int, height: int): Rectangle
  {
    Rectangle(Point(x, y), Point(x + width, y + height), width, height)
  }

  /** Rectangle::set as written: the right-top y coordinate is y + width, not y + height. */
  function Set(x: int, y: int, width: int, height: int): Rectangle
  {
    Rectangle(Point(x, y), Point(x + width, y + width), width, height)
  }

  /** After Set the left-bottom corner is (x, y) and the right-top corner (x + w, y + w): the box is square in its corners whatever h is. */
  lemma SetCorners(x: int, y: int, w: int, h: int)
    ensures Set(x, y, w, h).leftBottom == Point(x, y)
    ensures Set(x, y, w, h).rightTop == Point(x + w, y + w)
    ensures Set(x, y, w, h).height == h
    ensures w >= 0 ==> Set(x, y, w, h).WellFormed()
  {
  }

  /** Set and the constructor agree exactly when width and height are equal. */
  lemma SetAgreesWithMakeIffSquare(x: int, y: int, w: int, h: int)
    ensures Set(x, y, w, h) == Make(x, y, w, h) <==> w == h
  {
    if Set(x, y, w, h) == Make(x, y, w, h) {
      assert Set(x, y, w, h).rightTop.y == Make(x, y, w, h).rightTop.y;
    }
  }

  /** The stored height takes no part in any predicate. */
  lemma HeightIgnored(a: Rectangle, b: Rectangle, h: int, m: int)
    ensures a.(height := h).IsInside(b, m) == a.IsInside(b, m)
    ensures b.IsInside(a.(height := h), m) == b.IsInside(a, m)
    ensures a.(height := h).IsOverlapped(b, m) == a.IsOverlapped(b, m)
    ensures b.IsOverlapped(a.(height := h), m) == b.IsOverlapped(a, m)
    ensures a.(height := h).IsEastOf(b) == a.IsEastOf(b)
    ensures b.IsEastOf(a.(height := h)) == b.IsEastOf(a)
    ensures a.(height := h).IsNorthOf(b) == a.IsNorthOf(b)
    ensures b.IsNorthOf(a.(height := h)) == b.IsNorthOf(a)
  {
  }

  /** Overlap with a margin does not depend on the order of the two rectangles. */
  lemma OverlapSymmetric(a: Rectangle, b: Rectangle, m: int)
    ensures a.IsOverlapped(b, m) == b.IsOverlapped(a, m)
  {
  }

  /** Two well-formed rectangles cannot each lie east of the other, nor each north of the other. */
  lemma DirectionsExclusive(a: Rectangle, b: Rectangle)
    requires a.WellFormed() && b.WellFormed()
    ensures !(a.IsEastOf(b) && b.IsEastOf(a))
    ensures !(a.IsNorthOf(b) && b.IsNorthOf(a))
  {
  }

  /** With a positive margin no rectangle is inside itself, and containment is never mutual. */
  lemma InsideAntisymmetric(a: Rectangle, b: Rectangle, m: int)
    requires m > 0
    ensures !a.IsInside(a, m)
    ensures !(a.IsInside(b, m) && b.IsInside(a, m))
  {
  }

  /** A well-formed rectangle inside another (margin m >= 0) overlaps it, in both orders. */
  lemma InsideOverlaps(a: Rectangle, b: Rectangle, m: int)
    requires a.WellFormed() && m >= 0
    requires a.IsInside(b, m)
    ensures a.IsOverlapped(b, m) && b.IsOverlapped(a, m)
  {
  }
}

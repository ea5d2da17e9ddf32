/**
 * The shape model: squares, circles and point-up / point-down triangles,
 * each with an outer bounding rectangle (its collision envelope) and an
 * inner one (a region it is meant to enclose), and the relations between
 * two shapes that the picture builder uses.
 */
module Shapes {
  import opened Geometry
  import opened Roots

  datatype Option<T> = None | Some(value: T)

  /** Shape sizes the model covers; a zero-width triangle would divide by zero. */
  type Length = n: int | n >= 1 witness 1

  /** One random draw of createElement: size, then x, then y, then the figure code. */
  datatype Candidate = Candidate(size: Length, x: int, y: int, fig: int)

  datatype Shape =
    | Square(x: int, y: int, w: Length)
    | Circle(x: int, y: int, diameter: Length)
    | Triangle(x: int, y: int, w: Length, up: bool)
  {
    /** The size drawn for the shape: width, diameter or base. */
    function Size(): Length
    {
      match this
      case Square(_, _, w) => w
      case Circle(_, _, d) => d
      case Triangle(_, _, w, _) => w
    }

    function Outer(): Rectangle
    {
      match this
      case Square(x, y, w) => Set(x, y, w, w)
      case Circle(x, y, d) => Set(x, y, d, d)
      case Triangle(x, y, w, _) => Set(x, y, w, TriangleHeight(w))
    }

    function Inner(): Rectangle
    {
      match this
      case Square(x, y, w) => Set(x, y, w, w)
      case Circle(x, y, d) =>
        var r := d / 2;
        Set(x + CircleInset(r), y + CircleInset(r), CircleSide(r), CircleSide(r))
      case Triangle(x, y, w, up) =>
        var h := TriangleHeight(w);
        var iw := InscribedSide(h, w);
        // w - iw >= 0, so Dafny's division by 2 agrees with C++'s here
        if up then Set(x + (w - iw) / 2, y, iw, iw)
        else Set(x + (w - iw) / 2, y + h - iw, iw, iw)
    }

    /** This shape's outer box lies inside the other's inner box, with the default margin. */
    predicate IsInside(other: Shape)
    {
      Outer().IsInside(other.Inner(), MARGIN)
    }

    predicate IsOverlapped(other: Shape)
    {
      Outer().IsOverlapped(other.Outer(), MARGIN)
    }

    predicate IsEastOf(other: Shape)
    {
      Outer().IsEastOf(other.Outer())
    }

    predicate IsNorthOf(other: Shape)
    {
      Outer().IsNorthOf(other.Outer())
    }

    /**
     * conflict as written: the containment test is repeated in the same
     * direction, so whether other lies inside this shape is never consulted.
     */
    predicate Conflict(other: Shape)
    {
      if IsInside(other) then false
      else if IsInside(other) then false
      else IsOverlapped(other)
    }

    /** The outer right-top corner reaches the canvas bound on either axis. */
    predicate Overflow()
    {
      Outer().rightTop.x >= BOUND || Outer().rightTop.y >= BOUND
    }
  }

  /**
   * createElement once its four values are drawn: figure 1 is a square,
   * 2 a circle, 3 a point-down and 4 a point-up triangle; any other code
   * yields no shape (NULL).
   */
  function FromCandidate(c: Candidate): (r: Option<Shape>)
    ensures r.Some? <==> 1 <= c.fig <= 4
    ensures r.Some? ==> r.value.x == c.x && r.value.y == c.y && r.value.Size() == c.size
    ensures r.Some? ==> (r.value.Square? <==> c.fig == 1) && (r.value.Circle? <==> c.fig == 2)
    ensures r.Some? && r.value.Triangle? ==> (r.value.up <==> c.fig == 4)
  {
    if c.fig == 1 then Some(Square(c.x, c.y, c.size))
    else if c.fig == 2 then Some(Circle(c.x, c.y, c.size))
    else if c.fig == 3 then Some(Triangle(c.x, c.y, c.size, false))
    else if c.fig == 4 then Some(Triangle(c.x, c.y, c.size, true))
    else None
  }

  /** The outer box of every shape is well formed and contains its inner box. */
  lemma InnerWithinOuter(s: Shape)
    ensures s.Outer().WellFormed() && s.Inner().WellFormed()
    ensures s.Outer().leftBottom.x <= s.Inner().leftBottom.x
    ensures s.Outer().leftBottom.y <= s.Inner().leftBottom.y
    ensures s.Inner().rightTop.x <= s.Outer().rightTop.x
    ensures s.Inner().rightTop.y <= s.Outer().rightTop.y
  {
    match s
    case Square(_, _, _) =>
    case Circle(x, y, d) => CircleInnerWithinOuter(x, y, d);
    case Triangle(x, y, w, up) => TriangleInnerWithinOuter(x, y, w, up);
  }

  /** The circle's inscribed square, inset by CircleInset and of side CircleSide, fits its bounding box. */
  lemma CircleInnerWithinOuter(x: int, y: int, d: Length)
    ensures Circle(x, y, d).Inner().WellFormed()
    ensures Circle(x, y, d).Outer().leftBottom.x <= Circle(x, y, d).Inner().leftBottom.x
    ensures Circle(x, y, d).Outer().leftBottom.y <= Circle(x, y, d).Inner().leftBottom.y
    ensures Circle(x, y, d).Inner().rightTop.x <= Circle(x, y, d).Outer().rightTop.x
    ensures Circle(x, y, d).Inner().rightTop.y <= Circle(x, y, d).Outer().rightTop.y
  {
    CircleFits(d / 2);
  }

  /** The triangle's inscribed square is centred on the base and no wider than the height, which is at most the base. */
  lemma TriangleInnerWithinOuter(x: int, y: int, w: Length, up: bool)
    ensures Triangle(x, y, w, up).Inner().WellFormed()
    ensures Triangle(x, y, w, up).Outer().leftBottom.x <= Triangle(x, y, w, up).Inner().leftBottom.x
    ensures Triangle(x, y, w, up).Outer().leftBottom.y <= Triangle(x, y, w, up).Inner().leftBottom.y
    ensures Triangle(x, y, w, up).Inner().rightTop.x <= Triangle(x, y, w, up).Outer().rightTop.x
    ensures Triangle(x, y, w, up).Inner().rightTop.y <= Triangle(x, y, w, up).Outer().rightTop.y
  {
    TriangleHeightBounds(w);
    InscribedSideBounds(TriangleHeight(w), w);
  }

  /** The square and the circle share one outer box, and their inner boxes are that box and its inscribed square. */
  lemma SquareAndCircleOfOneDiameter(x: int, y: int, d: Length)
    ensures Square(x, y, d).Outer() == Circle(x, y, d).Outer()
    ensures Square(x, y, d).Inner() == Square(x, y, d).Outer()
  {
  }

  /** A square of width 10 and a circle of diameter 10, both at the origin, overlap without either being inside the other. */
  lemma SquareCircleExample()
    ensures Square(0, 0, 10).IsOverlapped(Circle(0, 0, 10))
    ensures !Square(0, 0, 10).IsInside(Circle(0, 0, 10))
    ensures !Circle(0, 0, 10).IsInside(Square(0, 0, 10))
  {
    InnerWithinOuter(Circle(0, 0, 10));
  }

  /** No shape lies inside itself, and two shapes are never inside each other. */
  lemma ContainmentAsymmetric(a: Shape, b: Shape)
    ensures !a.IsInside(a)
    ensures a.IsInside(b) ==> !b.IsInside(a)
  {
    InnerWithinOuter(a);
    InnerWithinOuter(b);
  }

  /** A shape inside another overlaps it, in both orders. */
  lemma InsideOverlapsShape(a: Shape, b: Shape)
    requires a.IsInside(b)
    ensures a.IsOverlapped(b) && b.IsOverlapped(a)
  {
    InnerWithinOuter(a);
    InnerWithinOuter(b);
  }

  /** conflict is false when this shape is inside the other, and otherwise it is exactly overlap. */
  lemma ConflictCases(a: Shape, b: Shape)
    ensures a.IsInside(b) ==> !a.Conflict(b)
    ensures !a.IsInside(b) ==> (a.Conflict(b) <==> a.IsOverlapped(b))
  {
  }

  /**
   * Because conflict never asks whether other lies inside this shape, a
   * shape b sitting inside a still conflicts from a's side.
   */
  lemma ReverseContainmentConflicts(a: Shape, b: Shape)
    requires b.IsInside(a)
    ensures a.Conflict(b)
    ensures !b.Conflict(a)
  {
    ContainmentAsymmetric(b, a);
    InsideOverlapsShape(b, a);
  }

  /** Two shapes never lie each east of the other, nor each north of the other. */
  lemma DirectionsExclusiveShape(a: Shape, b: Shape)
    ensures !(a.IsEastOf(b) && b.IsEastOf(a))
    ensures !(a.IsNorthOf(b) && b.IsNorthOf(a))
  {
    InnerWithinOuter(a);
    InnerWithinOuter(b);
  }

  /**
   * overflow reads the triangle's top as y + w because of Rectangle::set:
   * a point-up triangle of base 60 at (2, 40) is rejected although its
   * apex, at height ceil(60 * sqrt 3 / 2) = 52, ends at y = 92.
   */
  lemma TriangleOverflowUsesWidth()
    ensures Triangle(2, 40, 60, true).Overflow()
    ensures TriangleHeight(60) == 52
    ensures 40 + TriangleHeight(60) < BOUND
  {
    LeastRootUnique(4, 3 * Sq(60), 52);
  }
}

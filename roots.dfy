/**
 * Exact integer stand-ins for the three irrational quantities the shape
 * constructors compute in floating point: floor(r * sqrt 2), ceil(r / sqrt 2)
 * and ceil(w * sqrt 3 / 2).  Each is characterised by integer inequalities
 * on squares, which pin down the real floor or ceiling exactly.
 */
module Roots {

  function Sq(n: int): int { n * n }

  lemma MulMono(c: int, a: int, b: int)
    requires 0 <= c
    ensures a <= b ==> c * a <= c * b
  {
    assert c * b - c * a == c * (b - a);
  }

  /** Squaring is monotone on the naturals, in both directions. */
  lemma SquareMono(a: int, b: int)
    requires 0 <= a && 0 <= b
    ensures a <= b <==> Sq(a) <= Sq(b)
  {
    if a <= b {
      assert Sq(b) - Sq(a) == (b + a) * (b - a);
      MulMono(b + a, 0, b - a);
    } else {
      assert Sq(a) - Sq(b) == (a - b) * (a + b);
      MulMono(a - b, 1, a + b);
    }
  }

  lemma ScaledMono(c: int, a: int, b: int)
    requires 1 <= c
    ensures a <= b <==> c * a <= c * b
  {
    assert c * b - c * a == c * (b - a);
    MulMono(c, 1, b - a);
  }

  /** Euclidean division of a non-negative number by a positive one stays below any bound b with a <= b * c. */
  lemma DivBelow(a: int, b: int, c: int)
    requires 0 <= a && 0 < c && a <= b * c
    ensures a / c <= b
  {
    var q := a / c;
    assert a == q * c + a % c;
    ScaledMono(c, b + 1, q);
    assert c * (b + 1) == c * b + c;
  }

  lemma BelowSquare(a: nat, k: nat)
    requires a >= 1
    ensures k <= a * Sq(k)
  {
    MulMono(k, 1, k);
    MulMono(Sq(k), 1, a);
  }

  /**
   * The least r >= k with a * r * r >= b, when no root below k exists.
   * The search walks upwards from k; every step stays below b.
   */
  function LeastRootFrom(a: nat, b: nat, k: nat): (r: nat)
    requires a >= 1
    requires k == 0 || a * Sq(k - 1) < b
    ensures k <= r
    ensures a * Sq(r) >= b
    ensures r == 0 || a * Sq(r - 1) < b
    decreases b - k
  {
    if a * Sq(k) >= b then k
    else
      BelowSquare(a, k);
      LeastRootFrom(a, b, k + 1)
  }

  /** The least natural r with a * r * r >= b. */
  function LeastRoot(a: nat, b: nat): (r: nat)
    requires a >= 1
    ensures a * Sq(r) >= b
    ensures r == 0 || a * Sq(r - 1) < b
  {
    LeastRootFrom(a, b, 0)
  }

  /** Any value k with a * k * k >= b bounds the least root from above. */
  lemma LeastRootAtMost(a: nat, b: nat, k: nat)
    requires a >= 1
    requires a * Sq(k) >= b
    ensures LeastRoot(a, b) <= k
  {
    var r := LeastRoot(a, b);
    if r > 0 {
      SquareMono(k, r - 1);
      ScaledMono(a, Sq(k), Sq(r - 1));
    }
  }

  /** The two inequalities of LeastRoot's contract determine its value. */
  lemma LeastRootUnique(a: nat, b: nat, k: nat)
    requires a >= 1
    requires a * Sq(k) >= b
    requires k == 0 || a * Sq(k - 1) < b
    ensures LeastRoot(a, b) == k
  {
    LeastRootAtMost(a, b, k);
    var r := LeastRoot(a, b);
    if k > 0 {
      SquareMono(r, k - 1);
      ScaledMono(a, Sq(r), Sq(k - 1));
    }
  }

  /** ceil(w * sqrt(3) / 2): the height of an equilateral triangle with base w. */
  function TriangleHeight(w: nat): (h: nat)
    ensures 4 * Sq(h) >= 3 * Sq(w)
    ensures h == 0 || 4 * Sq(h - 1) < 3 * Sq(w)
  {
    LeastRoot(4, 3 * Sq(w))
  }

  /** floor(r * sqrt(2)): the side of the square inscribed in a circle of radius r. */
  function CircleSide(r: nat): (s: nat)
    ensures Sq(s) <= 2 * Sq(r) < Sq(s + 1)
  {
    LeastRoot(1, 2 * Sq(r) + 1) - 1
  }

  /**
   * floor(r - r * sqrt(2) / 2), which is r - ceil(r / sqrt(2)): how far the
   * inscribed square's corner sits from the corner of the circle's bounding box.
   */
  function CircleInset(r: nat): (m: nat)
    ensures m <= r
    ensures 2 * Sq(r - m) >= Sq(r)
    ensures m == r || 2 * Sq(r - m - 1) < Sq(r)
  {
    LeastRootAtMost(2, Sq(r), r);
    r - LeastRoot(2, Sq(r))
  }

  /** h * w / (h + w): the side of the square inscribed in a triangle of base w and height h, standing on the base. */
  function InscribedSide(h: nat, w: nat): nat
    requires h + w > 0
  {
    h * w / (h + w)
  }

  /** The inscribed square is no wider than the triangle's height or its base. */
  lemma InscribedSideBounds(h: nat, w: nat)
    requires h >= 1 && w >= 1
    ensures InscribedSide(h, w) <= h && InscribedSide(h, w) <= w
  {
    MulMono(h, w, h + w);
    MulMono(w, h, h + w);
    DivBelow(h * w, h, h + w);
    assert h * w == w * h;
    DivBelow(h * w, w, h + w);
  }

  lemma TriangleHeightBounds(w: nat)
    requires w >= 1
    ensures 1 <= TriangleHeight(w) <= w
  {
    LeastRootAtMost(4, 3 * Sq(w), w);
    MulMono(w, 1, w);
  }

  lemma SqDouble(n: int)
    ensures Sq(2 * n) == 4 * Sq(n)
  {
  }

  lemma SqThreeAndOne(n: int)
    ensures Sq(3 * n + 1) == 9 * Sq(n) + 6 * n + 1
  {
  }

  lemma TwiceSideBound(r: nat)
    ensures 2 * CircleSide(r) <= 3 * r
  {
    var s := CircleSide(r);
    SquareMono(3 * r + 1, 2 * s);
    SqDouble(s);
    SqThreeAndOne(r);
  }

  lemma TwiceRootBound(r: nat)
    ensures r <= 2 * (r - CircleInset(r))
  {
    var k := r - CircleInset(r);
    SquareMono(r, 2 * k);
    assert Sq(2 * k) == 4 * Sq(k);
  }

  /** r - ceil(r / sqrt 2) + floor(r * sqrt 2) <= 2r: the inscribed square stays inside the circle's box. */
  lemma CircleFits(r: nat)
    ensures CircleInset(r) + CircleSide(r) <= 2 * r
  {
    TwiceSideBound(r);
    TwiceRootBound(r);
  }
}

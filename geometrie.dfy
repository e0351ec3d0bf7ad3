/**
 * Grid positions (Point2D). A position is an integer pair compared by value;
 * a move replaces a creature's position instead of mutating a shared point.
 * The floating-point Euclidean distance is replaced by the squared distance,
 * which orders pairs of points in exactly the same way.
 */
module Geometrie {

  datatype Point = Point(x: int, y: int) {

    /** translate(dx, dy): the point shifted by (dx, dy). */
    function Translate(dx: int, dy: int): (r: Point)
      ensures r.x == x + dx && r.y == y + dy
    {
      Point(x + dx, y + dy)
    }

    /** setPosition(x, y): the point moved to the given coordinates. */
    function SetPosition(nx: int, ny: int): (r: Point)
      ensures r.x == nx && r.y == ny
    {
      Point(nx, ny)
    }
  }

  /** The default constructor: the origin. */
  function Origine(): (r: Point)
    ensures r.x == 0 && r.y == 0
  {
    Point(0, 0)
  }

  /** The copy constructor: a point with the same coordinates. */
  function Copie(p: Point): (r: Point)
    ensures r.x == p.x && r.y == p.y && r == p
  {
    Point(p.x, p.y)
  }

  function Abs(n: int): (r: nat)
    ensures r == n || r == -n
  {
    if n < 0 then -n else n
  }

  /** The square of distance(p, q): dx*dx + dy*dy. */
  function DistanceCarree(p: Point, q: Point): (r: nat)
    ensures r == 0 <==> p == q
  {
    var dx := q.x - p.x;
    var dy := q.y - p.y;
    SquareZero(dx);
    SquareZero(dy);
    dx * dx + dy * dy
  }

  /** distance(p, q) <= k * sqrt(2), stated without square roots. */
  predicate DansPortee(p: Point, q: Point, k: int)
  {
    k >= 0 && DistanceCarree(p, q) <= 2 * k * k
  }

  /** The melee band: distance(p, q) <= sqrt(2). */
  predicate AuContact(p: Point, q: Point)
  {
    DistanceCarree(p, q) <= 2
  }

  /** A one-cell step: both offsets in {-1, 0, 1}, the form of every random draw. */
  predicate PasUnitaire(dx: int, dy: int)
  {
    -1 <= dx <= 1 && -1 <= dy <= 1
  }

  /** Chebyshev containment: |dx| <= k and |dy| <= k. */
  predicate DansCarre(p: Point, q: Point, k: int)
  {
    Abs(q.x - p.x) <= k && Abs(q.y - p.y) <= k
  }

  lemma SquareZero(n: int)
    ensures n * n >= 0
    ensures n * n == 0 <==> n == 0
  {
    if n < 0 {
      assert n * n == (-n) * (-n);
    }
  }

  /** A square is at least 4 as soon as |n| >= 2. */
  lemma {:induction false} SquareAtLeastFour(n: int)
    requires Abs(n) >= 2
    ensures n * n >= 4
  {
    var a := Abs(n);
    assert n * n == a * a;
    assert a * a >= 2 * a;
  }

  /** A square is at most k*k when |n| <= k. */
  lemma {:induction false} SquareMonotone(n: int, k: int)
    requires Abs(n) <= k
    ensures n * n <= k * k
  {
    var a := Abs(n);
    assert n * n == a * a;
    assert a * a <= a * k;
    assert a * k <= k * k;
  }

  /** translate(dx, dy) then translate(-dx, -dy) gives the original point back. */
  lemma TranslateInverse(p: Point, dx: int, dy: int)
    ensures p.Translate(dx, dy).Translate(-dx, -dy) == p
  {
  }

  /** Moving to (nx, ny) is translating by the offset between the two points. */
  lemma SetPositionEstTranslation(p: Point, nx: int, ny: int)
    ensures p.SetPosition(nx, ny) == p.Translate(nx - p.x, ny - p.y)
    ensures DistanceCarree(p, p.SetPosition(nx, ny)) == (nx - p.x) * (nx - p.x) + (ny - p.y) * (ny - p.y)
  {
  }

  /** Distance is symmetric. */
  lemma DistanceSymetrique(p: Point, q: Point)
    ensures DistanceCarree(p, q) == DistanceCarree(q, p)
  {
    var dx, dy := q.x - p.x, q.y - p.y;
    assert (-dx) * (-dx) == dx * dx;
    assert (-dy) * (-dy) == dy * dy;
  }

  /**
   * The melee test "distance <= sqrt(2)" is exactly the 3x3 neighbourhood:
   * both coordinate offsets lie in {-1, 0, 1}.
   */
  lemma {:induction false} ContactEstVoisinage(p: Point, q: Point)
    ensures AuContact(p, q) <==> DansCarre(p, q, 1)
  {
    var dx, dy := q.x - p.x, q.y - p.y;
    SquareZero(dx);
    SquareZero(dy);
    if Abs(dx) >= 2 {
      SquareAtLeastFour(dx);
    } else if Abs(dy) >= 2 {
      SquareAtLeastFour(dy);
    } else {
      SquareMonotone(dx, 1);
      SquareMonotone(dy, 1);
    }
  }

  /**
   * A point inside the Chebyshev square of half-width k is within the
   * range k * sqrt(2); the square is the disc's inscribed box.
   */
  lemma {:induction false} CarreDansPortee(p: Point, q: Point, k: int)
    requires k >= 0
    requires DansCarre(p, q, k)
    ensures DansPortee(p, q, k)
  {
    SquareMonotone(q.x - p.x, k);
    SquareMonotone(q.y - p.y, k);
  }

  /** A one-cell step other than (0, 0) lands on one of the 8 neighbouring cells. */
  lemma PasVersVoisin(p: Point, dx: int, dy: int)
    requires PasUnitaire(dx, dy) && (dx, dy) != (0, 0)
    ensures AuContact(p, p.Translate(dx, dy)) && p.Translate(dx, dy) != p
  {
    ContactEstVoisinage(p, p.Translate(dx, dy));
  }
}

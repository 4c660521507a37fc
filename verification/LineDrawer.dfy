/** The integer line drawer: an error term in place of division, proved to give the nearest cells. */
module LineDrawer {
  datatype Point = Point(x: int, y: int)

  function Abs(n: int): nat {
    if n < 0 then -n else n
  }

  function Sign(n: int): int {
    if n > 0 then 1 else -1
  }

  /** The number of steps: the longer of the two extents. */
  function Steps(a: Point, b: Point): nat {
    var dx, dy := Abs(b.x - a.x), Abs(b.y - a.y);
    if dx > dy then dx else dy
  }

  /** The whole number nearest to `dy * x / dx`, halves rounded up. */
  function Nearest(dx: nat, dy: nat, x: nat): nat {
    if dx == 0 then 0 else (2 * dy * x + dx) / (2 * dx)
  }

  /** `i` cells along the longer axis, the nearest number of cells along the other. */
  function PointAt(a: Point, b: Point, i: nat): Point {
    var dx, dy := Abs(b.x - a.x), Abs(b.y - a.y);
    var xs, ys := Sign(b.x - a.x), Sign(b.y - a.y);
    if dx > dy then Point(a.x + i * xs, a.y + Nearest(dx, dy, i) * ys)
    else Point(a.x + Nearest(dy, dx, i) * xs, a.y + i * ys)
  }

  function Line(a: Point, b: Point): seq<Point> {
    seq(Steps(a, b) + 1, i requires 0 <= i => PointAt(a, b, i))
  }

  // ----- the nearest cell -----

  /** `y` is within half a cell of the true line; on a tie it is the upper cell. */
  predicate WithinHalf(dx: nat, dy: nat, x: nat, y: nat) {
    0 - dx <= 2 * (dy * x) - 2 * (dx * y) < dx
  }

  lemma NearestIsWithinHalf(dx: nat, dy: nat, x: nat)
    requires dx > 0
    ensures WithinHalf(dx, dy, x, Nearest(dx, dy, x))
  {
    var n, m := 2 * dy * x + dx, 2 * dx;
    var y := n / m;
    DivisionBounds(n, m);
    assert m * y == 2 * (dx * y);
    assert n == 2 * (dy * x) + dx;
  }

  lemma DivisionBounds(n: nat, m: nat)
    requires m > 0
    ensures m * (n / m) <= n < m * (n / m) + m
  {
  }

  /** Only one cell is that close. */
  lemma OnlyNearest(dx: nat, dy: nat, x: nat, y: nat)
    requires dx > 0 && WithinHalf(dx, dy, x, y)
    ensures y == Nearest(dx, dy, x)
  {
    var n := Nearest(dx, dy, x);
    NearestIsWithinHalf(dx, dy, x);
    if y < n {
      MulStep(dx, y, n);
    } else if n < y {
      MulStep(dx, n, y);
    }
  }

  lemma {:induction false} MulStep(d: nat, a: nat, b: nat)
    requires a < b
    ensures d * a + d <= d * b
  {
    if a + 1 < b {
      MulStep(d, a, b - 1);
      assert d * b == d * (b - 1) + d;
    } else {
      assert d * b == d * a + d;
    }
  }

  /** One step along the longer axis moves the other coordinate by nothing or by one. */
  lemma NearestClimbs(dx: nat, dy: nat, x: nat)
    requires dy <= dx
    ensures Nearest(dx, dy, x) <= Nearest(dx, dy, x + 1) <= Nearest(dx, dy, x) + 1
  {
    if dx > 0 {
      var y := Nearest(dx, dy, x);
      NearestIsWithinHalf(dx, dy, x);
      assert dy * (x + 1) == dy * x + dy && dx * (y + 1) == dx * y + dx;
      if WithinHalf(dx, dy, x + 1, y) {
        OnlyNearest(dx, dy, x + 1, y);
      } else {
        OnlyNearest(dx, dy, x + 1, y + 1);
      }
    }
  }

  lemma NearestEnds(dx: nat, dy: nat)
    requires dy <= dx
    ensures Nearest(dx, dy, 0) == 0 && Nearest(dx, dy, dx) == dy
  {
    if dx > 0 {
      assert dy * 0 == 0 && dx * 0 == 0;
      OnlyNearest(dx, dy, 0, 0);
      assert dy * dx == dx * dy;
      OnlyNearest(dx, dy, dx, dy);
    }
  }

  // ----- the line -----

  /** From one end to the other, in as many cells as the longer extent needs. */
  lemma LineJoinsEnds(a: Point, b: Point)
    ensures var l := Line(a, b);
            |l| == Steps(a, b) + 1 && l[0] == a && l[|l| - 1] == b
  {
    hide Nearest;
    var dx, dy := Abs(b.x - a.x), Abs(b.y - a.y);
    if dx > dy {
      NearestEnds(dx, dy);
    } else {
      NearestEnds(dy, dx);
    }
  }

  /** Consecutive cells are different and touch, at least by a corner. */
  lemma LineIsConnected(a: Point, b: Point, i: nat)
    requires i < Steps(a, b)
    ensures var p, q := Line(a, b)[i], Line(a, b)[i + 1];
            p != q && Abs(q.x - p.x) <= 1 && Abs(q.y - p.y) <= 1
  {
    hide Nearest;
    var dx, dy := Abs(b.x - a.x), Abs(b.y - a.y);
    if dx > dy {
      NearestClimbs(dx, dy, i);
    } else {
      NearestClimbs(dy, dx, i);
    }
  }

  /** Twice the distance of `p` from the true line along the shorter axis, times the longer extent. */
  function Deviation(a: Point, b: Point, p: Point): int {
    2 * ((p.x - a.x) * (b.y - a.y) - (p.y - a.y) * (b.x - a.x))
  }

  /** In every direction each cell is within half a cell of the true line. */
  lemma LineIsClose(a: Point, b: Point, i: nat)
    requires i <= Steps(a, b)
    ensures Abs(Deviation(a, b, Line(a, b)[i])) <= Steps(a, b)
  {
    hide Nearest, WithinHalf, Deviation;
    var dx, dy := Abs(b.x - a.x), Abs(b.y - a.y);
    if dx > dy {
      var y := Nearest(dx, dy, i);
      NearestIsWithinHalf(dx, dy, i);
      HalfIsClose(dx, dy, i, y);
      DeviationIsSigned(a, b, i, y);
    } else {
      var x := Nearest(dy, dx, i);
      if dy > 0 {
        NearestIsWithinHalf(dy, dx, i);
        HalfIsClose(dy, dx, i, x);
      }
      DeviationIsSigned(a, b, x, i);
    }
  }

  lemma HalfIsClose(dx: nat, dy: nat, x: nat, y: nat)
    requires WithinHalf(dx, dy, x, y)
    ensures 2 * Abs(x * dy - y * dx) <= dx
  {
    assert x * dy == dy * x && y * dx == dx * y;
  }

  /** The deviation of a cell `m` and `n` steps towards the end does not depend on the directions. */
  lemma DeviationIsSigned(a: Point, b: Point, m: nat, n: nat)
    ensures var u, v := b.x - a.x, b.y - a.y;
            Abs(Deviation(a, b, Point(a.x + m * Sign(u), a.y + n * Sign(v)))) == 2 * Abs(m * Abs(v) - n * Abs(u))
  {
    var u, v := b.x - a.x, b.y - a.y;
    SignedProduct(m, u, v);
    SignedProduct(n, v, u);
    assert Sign(u) == Sign(v) || Sign(u) == -Sign(v);
  }

  lemma SignedProduct(m: nat, u: int, v: int)
    ensures (m * Sign(u)) * v == if Sign(u) == Sign(v) then m * Abs(v) else -(m * Abs(v))
  {
    if u > 0 {
      assert m * Sign(u) == m;
    } else {
      assert m * Sign(u) == 0 - m;
      assert (0 - m) * v == -(m * v);
    }
    if v < 0 {
      assert m * Abs(v) == -(m * v);
    }
  }

  // ----- the program -----

  /** The error term after `x` steps of which `y` went up. */
  predicate ErrorTerm(dx: nat, dy: nat, x: nat, y: nat, d: int) {
    d == 2 * (dy * x) - 2 * (dx * y) + 2 * dy - dx
  }

  lemma ErrorSteps(dx: nat, dy: nat, x: nat, y: nat, d: int)
    requires 0 < dx && dy <= dx && WithinHalf(dx, dy, x, y) && ErrorTerm(dx, dy, x, y, d)
    ensures d >= 0 ==> WithinHalf(dx, dy, x + 1, y + 1) && ErrorTerm(dx, dy, x + 1, y + 1, d - 2 * dx + 2 * dy)
    ensures d < 0 ==> WithinHalf(dx, dy, x + 1, y) && ErrorTerm(dx, dy, x + 1, y, d + 2 * dy)
  {
    assert dy * (x + 1) == dy * x + dy && dx * (y + 1) == dx * y + dx;
  }

  method Bresenham(a: Point, b: Point) returns (points: seq<Point>)
    ensures points == Line(a, b)
  {
    hide Nearest, WithinHalf, ErrorTerm;
    var dx, dy := b.x - a.x, b.y - a.y;
    var xsign, ysign := if dx > 0 then 1 else -1, if dy > 0 then 1 else -1;
    dx, dy := Abs(dx), Abs(dy);
    var xx, xy, yx, yy;
    if dx > dy {
      xx, xy, yx, yy := xsign, 0, 0, ysign;
    } else {
      dx, dy := dy, dx;
      xx, xy, yx, yy := 0, ysign, xsign, 0;
    }
    var d, y := 2 * dy - dx, 0;
    points := [];
    StartError(dx, dy);
    for x := 0 to dx + 1
      invariant |points| == x && y >= 0
      invariant dx > 0 ==> WithinHalf(dx, dy, x, y) && ErrorTerm(dx, dy, x, y, d)
      invariant dx == 0 && x == 0 ==> y == 0
      invariant forall i :: 0 <= i < x ==> points[i] == PointAt(a, b, i)
    {
      if dx > 0 {
        OnlyNearest(dx, dy, x, y);
        ErrorSteps(dx, dy, x, y, d);
      } else {
        NearestEnds(0, 0);
      }
      assert x * 0 == 0 && y * 0 == 0;
      points := points + [Point(a.x + x * xx + y * yx, a.y + x * xy + y * yy)];
      if d >= 0 {
        y := y + 1;
        d := d - 2 * dx;
      }
      d := d + 2 * dy;
    }
  }

  lemma StartError(dx: nat, dy: nat)
    ensures ErrorTerm(dx, dy, 0, 0, 2 * dy - dx) && (dx > 0 ==> WithinHalf(dx, dy, 0, 0))
  {
    assert dy * 0 == 0 && dx * 0 == 0;
  }
}

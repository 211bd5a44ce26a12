/** What the distances of the simplification mean: distance to a line, and lengths that simplifying never increases. */
module NavGeometry {
  import opened Grids
  import opened NavPath

  /** The root squares back to its argument. */
  ghost predicate TrueRoot(sqrt: Sqrt) {
    forall x :: x >= 0.0 ==> sqrt(x) >= 0.0 && sqrt(x) * sqrt(x) == x
  }

  /** The point of the line through `a` and `b` that lies `u` of the way from `a` to `b`. */
  function OnLine(a: Point, b: Point, u: real): Point {
    Point(a.x + u * (b.x - a.x), a.y + u * (b.y - a.y))
  }

  /** The ends are far enough apart for the program to use the line through them: at least 0.00001. */
  predicate Spread(a: Point, b: Point) {
    Squared(a, b) >= 0.0000000001
  }

  // ----- vectors -----

  function Cross(vx: real, vy: real, wx: real, wy: real): real {
    vx * wy - vy * wx
  }

  function Dot(vx: real, vy: real, wx: real, wy: real): real {
    vx * wx + vy * wy
  }

  lemma Lagrange(vx: real, vy: real, dx: real, dy: real)
    ensures (Square(vx) + Square(vy)) * (Square(dx) + Square(dy))
         == Square(Cross(vx, vy, dx, dy)) + Square(Dot(vx, vy, dx, dy))
  {
  }

  /** Going along `v` does not change the cross product, and changes the dot product by the squared length. */
  lemma Along(vx: real, vy: real, wx: real, wy: real, u: real)
    ensures Cross(vx, vy, wx - u * vx, wy - u * vy) == Cross(vx, vy, wx, wy)
    ensures Dot(vx, vy, wx - u * vx, wy - u * vy) == Dot(vx, vy, wx, wy) - u * (Square(vx) + Square(vy))
  {
  }

  lemma ProductSign(a: real, b: real, p: real)
    requires p == a * b
    ensures (a > 0.0 && b > 0.0) || (a < 0.0 && b < 0.0) ==> p > 0.0
  {
  }

  lemma SquareIsNonNegative(r: real)
    ensures Square(r) >= 0.0
    ensures Square(r) == 0.0 <==> r == 0.0
  {
    ProductSign(r, r, Square(r));
  }

  lemma SquaresOrder(a: real, b: real)
    requires a >= 0.0 && b >= 0.0
    ensures Square(a) <= Square(b) <==> a <= b
    ensures Square(a) == Square(b) <==> a == b
  {
    if a < b {
      SquareGrows(a, b);
    } else if b < a {
      SquareGrows(b, a);
    }
  }

  lemma SquareGrows(a: real, b: real)
    requires 0.0 <= a < b
    ensures Square(a) < Square(b)
  {
    ProductSign(b - a, b - a, Square(b - a));
    assert b * b == a * a + (b - a) * (b - a) + 2.0 * (a * (b - a));
    assert a * (b - a) >= 0.0;
  }

  lemma ScaledOrder(s: real, a: real, b: real)
    requires s > 0.0
    ensures s * a <= s * b <==> a <= b
    ensures s * a == s * b <==> a == b
  {
    assert s * b - s * a == s * (b - a);
  }

  // ----- the perpendicular distance -----

  /** The vector from `a` to `b` crossed with the vector from `a` to `p`. */
  function Area(p: Point, a: Point, b: Point): real {
    Cross(b.x - a.x, b.y - a.y, p.x - a.x, p.y - a.y)
  }

  lemma CodedArea(p: Point, a: Point, b: Point)
    ensures Offset(p, a, b) == -Area(p, a, b)
  {
  }

  lemma CodedDistance(sqrt: Sqrt, p: Point, a: Point, b: Point)
    requires Spread(a, b)
    ensures sqrt(Squared(a, b)) > 0.0
    ensures PerpendicularDistance(sqrt, p, a, b) == AbsReal(Area(p, a, b)) / sqrt(Squared(a, b))
  {
    hide Area, Offset, Squared;
    CodedArea(p, a, b);
    assert AbsReal(Offset(p, a, b)) == AbsReal(Area(p, a, b));
  }

  lemma QuotientTimes(p: real, q: real, r: real)
    requires q > 0.0 && r == p / q
    ensures r * q == p && (p >= 0.0 ==> r >= 0.0) && (r == 0.0 <==> p == 0.0)
  {
    if r < 0.0 {
      assert r * q < 0.0;
    }
  }

  lemma SquaredIsNonNegative(a: Point, b: Point)
    ensures Squared(a, b) >= 0.0
  {
    SquareIsNonNegative(b.x - a.x);
    SquareIsNonNegative(b.y - a.y);
  }

  /** For every root admitted: not negative, zero exactly when the three points lie on one line. */
  lemma ZeroOnLine(sqrt: Sqrt, p: Point, a: Point, b: Point)
    requires Spread(a, b)
    ensures PerpendicularDistance(sqrt, p, a, b) >= 0.0
    ensures PerpendicularDistance(sqrt, p, a, b) == 0.0 <==> exists u :: p == OnLine(a, b, u)
  {
    hide PerpendicularDistance, Area;
    CodedDistance(sqrt, p, a, b);
    var d, r := PerpendicularDistance(sqrt, p, a, b), sqrt(Squared(a, b));
    QuotientTimes(AbsReal(Area(p, a, b)), r, d);
    if Area(p, a, b) == 0.0 {
      FlatIsOnLine(p, a, b);
    }
    if u :| p == OnLine(a, b, u) {
      OnLineIsFlat(a, b, u);
    }
  }

  lemma OnLineIsFlat(a: Point, b: Point, u: real)
    ensures Area(OnLine(a, b, u), a, b) == 0.0
  {
  }

  /** How far along the line the foot of the perpendicular from `p` lies. */
  function Foot(p: Point, a: Point, b: Point): real
    requires Spread(a, b)
  {
    Dot(b.x - a.x, b.y - a.y, p.x - a.x, p.y - a.y) / Squared(a, b)
  }

  lemma FlatIsOnLine(p: Point, a: Point, b: Point)
    requires Spread(a, b) && Area(p, a, b) == 0.0
    ensures p == OnLine(a, b, Foot(p, a, b))
  {
    var u := Foot(p, a, b);
    var q := OnLine(a, b, u);
    SquaredOff(p, a, b, u);
    FootIsSquare(p, a, b);
    var x, y := p.x - q.x, p.y - q.y;
    SquareIsNonNegative(x);
    SquareIsNonNegative(y);
    ScaledOrder(Squared(a, b), Square(x) + Square(y), 0.0);
  }

  /** Lagrange's identity for a point and a point of the line. */
  lemma SquaredOff(p: Point, a: Point, b: Point, u: real)
    ensures var q := OnLine(a, b, u);
      && Squared(a, b) * Squared(q, p)
         == Square(Area(p, a, b)) + Square(Dot(b.x - a.x, b.y - a.y, p.x - q.x, p.y - q.y))
      && Squared(q, p) == Square(p.x - q.x) + Square(p.y - q.y)
  {
    hide Square;
    var vx, vy, q := b.x - a.x, b.y - a.y, OnLine(a, b, u);
    Lagrange(vx, vy, p.x - q.x, p.y - q.y);
    Along(vx, vy, p.x - a.x, p.y - a.y, u);
    assert p.x - q.x == (p.x - a.x) - u * vx && p.y - q.y == (p.y - a.y) - u * vy;
  }

  /** At the foot the offset is perpendicular to the line. */
  lemma FootIsSquare(p: Point, a: Point, b: Point)
    requires Spread(a, b)
    ensures var q := OnLine(a, b, Foot(p, a, b));
      Dot(b.x - a.x, b.y - a.y, p.x - q.x, p.y - q.y) == 0.0
  {
    hide Square;
    var vx, vy, u := b.x - a.x, b.y - a.y, Foot(p, a, b);
    var q := OnLine(a, b, u);
    Along(vx, vy, p.x - a.x, p.y - a.y, u);
    assert u * Squared(a, b) == Dot(vx, vy, p.x - a.x, p.y - a.y);
    assert p.x - q.x == (p.x - a.x) - u * vx && p.y - q.y == (p.y - a.y) - u * vy;
  }

  lemma PerpendicularSquared(sqrt: Sqrt, p: Point, a: Point, b: Point)
    requires TrueRoot(sqrt) && Spread(a, b)
    ensures Squared(a, b) * Square(PerpendicularDistance(sqrt, p, a, b)) == Square(Area(p, a, b))
  {
    hide PerpendicularDistance, Area, Squared, Square, AbsReal, TrueRoot;
    CodedDistance(sqrt, p, a, b);
    var d, r := PerpendicularDistance(sqrt, p, a, b), sqrt(Squared(a, b));
    QuotientTimes(AbsReal(Area(p, a, b)), r, d);
    SquaredIsNonNegative(a, b);
    var r2 := ProductSquares(d, r, Area(p, a, b));
    RootSquares(sqrt, Squared(a, b), r, r2);
  }

  lemma RootSquares(sqrt: Sqrt, x: real, r: real, r2: real)
    requires TrueRoot(sqrt) && x >= 0.0 && r == sqrt(x) && r2 == r * r
    ensures r2 == x
  {
  }

  lemma ProductSquares(d: real, r: real, area: real) returns (r2: real)
    requires d * r == AbsReal(area)
    ensures r2 == r * r && r2 * Square(d) == Square(area)
  {
    var e := d * r;
    r2 := r * r;
    assert r2 * Square(d) == e * e;
  }

  /** The coded distance is the distance to the line: no point of the line is nearer, and the foot is as near. */
  lemma DistanceToLine(sqrt: Sqrt, p: Point, a: Point, b: Point, u: real)
    requires TrueRoot(sqrt) && Spread(a, b)
    ensures PerpendicularDistance(sqrt, p, a, b) <= Distance(sqrt, p, OnLine(a, b, u))
    ensures PerpendicularDistance(sqrt, p, a, b) == Distance(sqrt, p, OnLine(a, b, Foot(p, a, b)))
  {
    hide PerpendicularDistance, Area, Squared, Square, Dot, Distance, Foot, OnLine;
    OffLine(sqrt, p, a, b, u);
    OffLine(sqrt, p, a, b, Foot(p, a, b));
    FootIsSquare(p, a, b);
  }

  /** How the coded distance compares with the distance to one point of the line. */
  lemma OffLine(sqrt: Sqrt, p: Point, a: Point, b: Point, u: real)
    requires TrueRoot(sqrt) && Spread(a, b)
    ensures PerpendicularDistance(sqrt, p, a, b) <= Distance(sqrt, p, OnLine(a, b, u))
    ensures var q := OnLine(a, b, u);
      Dot(b.x - a.x, b.y - a.y, p.x - q.x, p.y - q.y) == 0.0 ==>
        PerpendicularDistance(sqrt, p, a, b) == Distance(sqrt, p, q)
  {
    hide PerpendicularDistance, Area, Squared, Square, Dot, Distance, OnLine;
    var q := OnLine(a, b, u);
    ZeroOnLine(sqrt, p, a, b);
    PerpendicularSquared(sqrt, p, a, b);
    SquaredOff(p, a, b, u);
    DistanceSquared(sqrt, p, q);
    SpreadIsPositive(a, b);
    CompareSquares(Squared(a, b), PerpendicularDistance(sqrt, p, a, b), Distance(sqrt, p, q), Square(Area(p, a, b)),
                   Dot(b.x - a.x, b.y - a.y, p.x - q.x, p.y - q.y));
  }

  lemma SpreadIsPositive(a: Point, b: Point)
    requires Spread(a, b)
    ensures Squared(a, b) > 0.0
  {
  }

  lemma CompareSquares(s: real, d: real, e: real, area2: real, dot: real)
    requires s > 0.0 && d >= 0.0 && e >= 0.0
    requires s * Square(d) == area2 && s * Square(e) == area2 + Square(dot)
    ensures d <= e && (dot == 0.0 ==> d == e)
  {
    hide Square;
    SquareIsNonNegative(dot);
    ScaledOrder(s, Square(d), Square(e));
    SquaresOrder(d, e);
  }

  /** Moving all three points together changes nothing, whatever the root. */
  lemma Translated(sqrt: Sqrt, p: Point, a: Point, b: Point, dx: real, dy: real)
    ensures PerpendicularDistance(sqrt, Shifted(p, dx, dy), Shifted(a, dx, dy), Shifted(b, dx, dy))
         == PerpendicularDistance(sqrt, p, a, b)
  {
    hide PerpendicularDistance, Distance, Area, Squared, Shifted;
    ShiftKeeps(p, a, b, dx, dy);
    if Spread(a, b) {
      CodedDistance(sqrt, p, a, b);
      CodedDistance(sqrt, Shifted(p, dx, dy), Shifted(a, dx, dy), Shifted(b, dx, dy));
    } else {
      CloseDistance(sqrt, p, a, b);
      DistanceIsRoot(sqrt, p, a);
      DistanceIsRoot(sqrt, Shifted(p, dx, dy), Shifted(a, dx, dy));
      CloseDistance(sqrt, Shifted(p, dx, dy), Shifted(a, dx, dy), Shifted(b, dx, dy));
    }
  }

  lemma ShiftKeeps(p: Point, a: Point, b: Point, dx: real, dy: real)
    ensures Area(Shifted(p, dx, dy), Shifted(a, dx, dy), Shifted(b, dx, dy)) == Area(p, a, b)
    ensures Squared(Shifted(a, dx, dy), Shifted(b, dx, dy)) == Squared(a, b)
    ensures Squared(Shifted(p, dx, dy), Shifted(a, dx, dy)) == Squared(p, a)
  {
    hide Cross, Square;
    var p', a', b' := Shifted(p, dx, dy), Shifted(a, dx, dy), Shifted(b, dx, dy);
    assert b'.x - a'.x == b.x - a.x && b'.y - a'.y == b.y - a.y;
    assert p'.x - a'.x == p.x - a.x && p'.y - a'.y == p.y - a.y;
    assert a'.x - p'.x == a.x - p.x && a'.y - p'.y == a.y - p.y;
  }

  /** Ends that nearly coincide count as the first of them. */
  lemma CloseDistance(sqrt: Sqrt, p: Point, a: Point, b: Point)
    requires !Spread(a, b)
    ensures PerpendicularDistance(sqrt, p, a, b) == Distance(sqrt, p, a)
  {
  }

  function Shifted(p: Point, dx: real, dy: real): Point {
    Point(p.x + dx, p.y + dy)
  }

  // ----- distances and lengths -----

  lemma DistanceIsRoot(sqrt: Sqrt, a: Point, b: Point)
    ensures Distance(sqrt, a, b) == sqrt(Squared(a, b))
  {
  }

  lemma DistanceSquared(sqrt: Sqrt, a: Point, b: Point)
    requires TrueRoot(sqrt)
    ensures Distance(sqrt, a, b) >= 0.0 && Square(Distance(sqrt, a, b)) == Squared(a, b) == Squared(b, a)
  {
    SquareIsNonNegative(b.x - a.x);
    SquareIsNonNegative(b.y - a.y);
    SquareOfNegative(b.x - a.x);
    SquareOfNegative(b.y - a.y);
  }

  lemma SquareOfNegative(r: real)
    ensures Square(-r) == Square(r)
  {
  }

  /** With a true root the distance is a metric. */
  lemma DistanceIsMetric(sqrt: Sqrt, a: Point, b: Point, c: Point)
    requires TrueRoot(sqrt)
    ensures Distance(sqrt, a, b) == 0.0 <==> a == b
    ensures Distance(sqrt, a, b) == Distance(sqrt, b, a)
    ensures Distance(sqrt, a, c) <= Distance(sqrt, a, b) + Distance(sqrt, b, c)
  {
    hide Distance, Square;
    DistanceSquared(sqrt, a, b);
    DistanceSquared(sqrt, b, a);
    DistanceSquared(sqrt, b, c);
    DistanceSquared(sqrt, a, c);
    SquaresOrder(Distance(sqrt, a, b), Distance(sqrt, b, a));
    SquareIsNonNegative(Distance(sqrt, a, b));
    SquareIsNonNegative(b.x - a.x);
    SquareIsNonNegative(b.y - a.y);
    Triangle(b.x - a.x, b.y - a.y, c.x - b.x, c.y - b.y,
             Distance(sqrt, a, b), Distance(sqrt, b, c), Distance(sqrt, a, c));
  }

  lemma Triangle(vx: real, vy: real, wx: real, wy: real, v: real, w: real, sum: real)
    requires v >= 0.0 && w >= 0.0 && sum >= 0.0
    requires Square(v) == Square(vx) + Square(vy) && Square(w) == Square(wx) + Square(wy)
    requires Square(sum) == Square(vx + wx) + Square(vy + wy)
    ensures sum <= v + w
  {
    hide Square;
    CauchySchwarz(vx, vy, wx, wy, v, w);
    SquareOfSum(vx, wx);
    SquareOfSum(vy, wy);
    SquareOfSum(v, w);
    SquaresOrder(sum, v + w);
  }

  lemma SquareOfSum(a: real, b: real)
    ensures Square(a + b) == Square(a) + 2.0 * (a * b) + Square(b)
  {
  }

  lemma CauchySchwarz(vx: real, vy: real, wx: real, wy: real, v: real, w: real)
    requires v >= 0.0 && w >= 0.0
    requires Square(v) == Square(vx) + Square(vy) && Square(w) == Square(wx) + Square(wy)
    ensures Dot(vx, vy, wx, wy) <= v * w
  {
    hide Square, Dot;
    var dot := Dot(vx, vy, wx, wy);
    var product := NonNegativeProduct(v, w);
    Lagrange(vx, vy, wx, wy);
    SquareIsNonNegative(Cross(vx, vy, wx, wy));
    SquareOfProduct(v, w, product);
    if dot > 0.0 {
      SquaresOrder(dot, product);
    }
  }

  lemma NonNegativeProduct(a: real, b: real) returns (p: real)
    requires a >= 0.0 && b >= 0.0
    ensures p == a * b && p >= 0.0
  {
    p := a * b;
  }

  lemma SquareOfProduct(v: real, w: real, product: real)
    requires product == v * w
    ensures Square(product) == Square(v) * Square(w)
  {
    assert (v * w) * (v * w) == (v * v) * (w * w);
  }

  /** A path is at least as long as the straight line between its ends. */
  lemma {:induction false} EndsAreShorter(sqrt: Sqrt, points: seq<Point>)
    requires TrueRoot(sqrt) && points != []
    ensures Distance(sqrt, points[0], points[|points| - 1]) <= TotalLength(sqrt, points)
  {
    hide Distance, TrueRoot;
    if |points| == 1 {
      DistanceIsMetric(sqrt, points[0], points[0], points[0]);
    } else {
      EndsAreShorter(sqrt, points[1..]);
      DistanceIsMetric(sqrt, points[0], points[1], points[|points| - 1]);
    }
  }

  /** Simplifying never makes a path longer. */
  lemma {:induction false} SimplifiedIsShorter(sqrt: Sqrt, points: seq<Point>, tolerance: real)
    requires TrueRoot(sqrt) && Ends(sqrt, points, tolerance)
    ensures TotalLength(sqrt, Simplified(sqrt, points, tolerance)) <= TotalLength(sqrt, points)
    decreases |points|
  {
    hide TrueRoot, Simplified, Distance, Split, TotalLength;
    if |points| < 3 {
      ShortIsFixed(sqrt, points, tolerance);
    } else if Split(sqrt, points).0 > tolerance {
      var front, back := Front(sqrt, points), Back(sqrt, points);
      SimplifiedIsShorter(sqrt, front, tolerance);
      SimplifiedIsShorter(sqrt, back, tolerance);
      LengthSplits(sqrt, points, Split(sqrt, points).1);
      SimplifiedLength(sqrt, points, tolerance);
    } else {
      FlatIsEnds(sqrt, points, tolerance);
      EndsAreShorter(sqrt, points);
      LegLength(sqrt, points[0], points[|points| - 1]);
    }
  }

  lemma LegLength(sqrt: Sqrt, a: Point, b: Point)
    ensures TotalLength(sqrt, [a, b]) == Distance(sqrt, a, b)
  {
    assert [a, b][1..] == [b];
  }

  lemma SimplifiedLength(sqrt: Sqrt, points: seq<Point>, tolerance: real)
    requires Ends(sqrt, points, tolerance) && |points| >= 3 && Split(sqrt, points).0 > tolerance
    ensures TotalLength(sqrt, Simplified(sqrt, points, tolerance))
         == TotalLength(sqrt, Simplified(sqrt, Front(sqrt, points), tolerance))
          + TotalLength(sqrt, Simplified(sqrt, Back(sqrt, points), tolerance))
  {
    hide Simplified, Split, TotalLength;
    var s := Simplified(sqrt, points, tolerance);
    var left := Simplified(sqrt, Front(sqrt, points), tolerance);
    var right := Simplified(sqrt, Back(sqrt, points), tolerance);
    SimplifiedSplits(sqrt, points, tolerance);
    SimplifiedEnds(sqrt, Front(sqrt, points), tolerance);
    SimplifiedEnds(sqrt, Back(sqrt, points), tolerance);
    LengthSplits(sqrt, s, |left| - 1);
    assert s[..|left|] == left && s[|left| - 1..] == right;
  }

  // ----- what the tolerance means -----

  /** Some point of the line through `a` and `b` is within the tolerance of `p`. */
  ghost predicate NearLine(sqrt: Sqrt, p: Point, a: Point, b: Point, tolerance: real) {
    exists u :: Distance(sqrt, p, OnLine(a, b, u)) <= tolerance
  }

  /** Every dropped point is near the line through the kept points around it. */
  ghost predicate GapsNear(sqrt: Sqrt, points: seq<Point>, positions: seq<nat>, tolerance: real)
    requires Within(positions, |points|)
  {
    forall i, p :: 0 < i < |positions| && positions[i - 1] < p < positions[i] ==>
      NearLine(sqrt, points[p], points[positions[i - 1]], points[positions[i]], tolerance)
  }

  lemma KeptGapsNear(sqrt: Sqrt, points: seq<Point>, tolerance: real)
    requires TrueRoot(sqrt) && Ends(sqrt, points, tolerance)
    ensures Within(Kept(sqrt, points, tolerance), |points|)
    ensures GapsNear(sqrt, points, Kept(sqrt, points, tolerance), tolerance)
  {
    hide TrueRoot, Kept, Ends, NearLine, PerpendicularDistance;
    var kept := Kept(sqrt, points, tolerance);
    KeptGapsWithin(sqrt, points, tolerance);
    forall i, p | 0 < i < |kept| && kept[i - 1] < p < kept[i]
      ensures NearLine(sqrt, points[p], points[kept[i - 1]], points[kept[i]], tolerance)
    {
      assert GapWithin(sqrt, points, kept[i - 1], kept[i], tolerance);
      WithinIsNear(sqrt, points[p], points[kept[i - 1]], points[kept[i]], tolerance);
    }
  }

  /** The program's test is exactly nearness to the line. */
  lemma WithinIsNear(sqrt: Sqrt, p: Point, a: Point, b: Point, tolerance: real)
    requires TrueRoot(sqrt)
    ensures PerpendicularDistance(sqrt, p, a, b) <= tolerance ==> NearLine(sqrt, p, a, b, tolerance)
    ensures Spread(a, b) && NearLine(sqrt, p, a, b, tolerance) ==> PerpendicularDistance(sqrt, p, a, b) <= tolerance
  {
    hide PerpendicularDistance, Distance, OnLine, Foot, TrueRoot;
    if Spread(a, b) {
      DistanceToLine(sqrt, p, a, b, 0.0);
      if u :| Distance(sqrt, p, OnLine(a, b, u)) <= tolerance {
        DistanceToLine(sqrt, p, a, b, u);
      }
    } else {
      CloseDistance(sqrt, p, a, b);
      StartOnLine(a, b);
    }
  }

  lemma StartOnLine(a: Point, b: Point)
    ensures OnLine(a, b, 0.0) == a
  {
  }
}

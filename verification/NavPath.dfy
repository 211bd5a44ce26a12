/** Paths of the navigator and their Douglas-Peucker simplification. */
module NavPath {
  import opened Grids

  /** The program's square root: all that is used is that positive numbers have positive roots. */
  type Sqrt = f: real -> real | (forall x :: x > 0.0 ==> f(x) > 0.0) witness (x: real) => x

  function Square(r: real): real {
    r * r
  }

  function Squared(a: Point, b: Point): real {
    Square(b.x - a.x) + Square(b.y - a.y)
  }

  function Distance(sqrt: Sqrt, a: Point, b: Point): real {
    sqrt(Squared(a, b))
  }

  /** Twice the area of the triangle of a point and the two ends of a line; the sign says on which side it lies. */
  function Offset(p: Point, a: Point, b: Point): real {
    (b.y - a.y) * p.x - (b.x - a.x) * p.y + b.x * a.y - b.y * a.x
  }

  /** Distance from a point to the line through two others, or to the first one when the two nearly coincide. */
  function PerpendicularDistance(sqrt: Sqrt, p: Point, a: Point, b: Point): real {
    if Squared(a, b) < 0.0000000001 then Distance(sqrt, p, a) else AbsReal(Offset(p, a, b)) / sqrt(Squared(a, b))
  }

  // ----- the split point -----

  /** Distance of point `i` from the line between the two ends. */
  function Off(sqrt: Sqrt, points: seq<Point>, i: nat): real
    requires i < |points|
  {
    PerpendicularDistance(sqrt, points[i], points[0], points[|points| - 1])
  }

  /**
   `(d, m)` is the outcome of looking at the interior points below `k`: the first maximum, or (0, 0) if none is off the
   line.
   */
  ghost predicate FirstMaximum(sqrt: Sqrt, points: seq<Point>, k: nat, d: real, m: nat)
    requires k <= |points|
  {
    && (forall i :: 1 <= i < k ==> Off(sqrt, points, i) <= d)
    && (m == 0 ==> d == 0.0)
    && (m > 0 ==> m < k && d == Off(sqrt, points, m) && d > 0.0 && forall i :: 1 <= i < m ==> Off(sqrt, points, i) < d)
  }

  function Farthest(sqrt: Sqrt, points: seq<Point>, k: nat): (r: (real, nat))
    requires k <= |points|
    ensures r.0 >= 0.0 && (r.1 == 0 <==> r.0 == 0.0) && (r.1 < k || r.1 == 0)
  {
    hide Off;
    if k <= 1 then (0.0, 0)
    else
      var before := Farthest(sqrt, points, k - 1);
      if Off(sqrt, points, k - 1) > before.0 then (Off(sqrt, points, k - 1), k - 1) else before
  }

  lemma {:induction false} FarthestIsFirst(sqrt: Sqrt, points: seq<Point>, k: nat)
    requires k <= |points|
    ensures FirstMaximum(sqrt, points, k, Farthest(sqrt, points, k).0, Farthest(sqrt, points, k).1)
  {
    hide Off;
    if k > 1 {
      FarthestIsFirst(sqrt, points, k - 1);
    }
  }

  lemma FarthestUnique(sqrt: Sqrt, points: seq<Point>, k: nat, d: real, m: nat)
    requires k <= |points| && FirstMaximum(sqrt, points, k, d, m)
    ensures Farthest(sqrt, points, k) == (d, m)
  {
    hide Off;
    var r := Farthest(sqrt, points, k);
    FarthestIsFirst(sqrt, points, k);
    assert r.1 > 0 ==> Off(sqrt, points, r.1) <= d;
    assert m > 0 ==> Off(sqrt, points, m) <= r.0;
  }

  /** The scan over the interior points of a path of three or more. */
  function Split(sqrt: Sqrt, points: seq<Point>): (r: (real, nat))
    requires |points| >= 3
    ensures r.1 < |points| - 1 && (r.0 > 0.0 ==> r.1 > 0)
  {
    Farthest(sqrt, points, |points| - 1)
  }

  /** The slice up to and including the split point, and the slice from it on. */
  function Front(sqrt: Sqrt, points: seq<Point>): seq<Point>
    requires |points| >= 3
  {
    points[..Split(sqrt, points).1 + 1]
  }

  function Back(sqrt: Sqrt, points: seq<Point>): seq<Point>
    requires |points| >= 3
  {
    points[Split(sqrt, points).1..]
  }

  // ----- the recursion -----

  /**
   The recursion ends: every slice it splits has a point off the line. A slice with no such point is split at
   index 0, which repeats the same call for ever.
   */
  predicate Ends(sqrt: Sqrt, points: seq<Point>, tolerance: real)
    decreases |points|
  {
    |points| < 3 || Split(sqrt, points).0 <= tolerance ||
    (Split(sqrt, points).1 > 0 && Ends(sqrt, Front(sqrt, points), tolerance)
      && Ends(sqrt, Back(sqrt, points), tolerance))
  }

  /** A tolerance that is not negative always ends. */
  lemma {:induction false} ToleranceEnds(sqrt: Sqrt, points: seq<Point>, tolerance: real)
    requires tolerance >= 0.0
    ensures Ends(sqrt, points, tolerance)
    decreases |points|
  {
    if |points| >= 3 && Split(sqrt, points).0 > tolerance {
      ToleranceEnds(sqrt, Front(sqrt, points), tolerance);
      ToleranceEnds(sqrt, Back(sqrt, points), tolerance);
    }
  }

  /** Exactly the tolerances that are not negative end on every path. */
  lemma ToleranceExact(sqrt: Sqrt, tolerance: real)
    ensures tolerance >= 0.0 <==> forall points :: Ends(sqrt, points, tolerance)
  {
    if tolerance >= 0.0 {
      forall points
        ensures Ends(sqrt, points, tolerance)
      {
        ToleranceEnds(sqrt, points, tolerance);
      }
    } else {
      StraightPathLoops(sqrt, tolerance);
    }
  }

  /** Three points in a row: with any negative tolerance the recursion never ends. */
  lemma StraightPathLoops(sqrt: Sqrt, tolerance: real)
    requires tolerance < 0.0
    ensures var row := [Point(0.0, 0.0), Point(1.0, 0.0), Point(2.0, 0.0)];
      !Ends(sqrt, row, tolerance) && Split(sqrt, row).0 > tolerance && Back(sqrt, row) == row
  {
    hide Ends, Split, Back, PerpendicularDistance;
    MiddleOfRow(sqrt);
    FlatPathLoops(sqrt, [Point(0.0, 0.0), Point(1.0, 0.0), Point(2.0, 0.0)], tolerance);
  }

  lemma MiddleOfRow(sqrt: Sqrt)
    ensures PerpendicularDistance(sqrt, Point(1.0, 0.0), Point(0.0, 0.0), Point(2.0, 0.0)) == 0.0
  {
    hide Squared, Offset;
    RowNumbers();
    ZeroQuotient(sqrt(4.0));
  }

  lemma RowNumbers()
    ensures Squared(Point(0.0, 0.0), Point(2.0, 0.0)) == 4.0
    ensures Offset(Point(1.0, 0.0), Point(0.0, 0.0), Point(2.0, 0.0)) == 0.0
  {
  }

  lemma ZeroQuotient(r: real)
    requires r > 0.0
    ensures 0.0 / r == 0.0
  {
  }

  /** A negative tolerance does not end on a flat path: the second recursive call is the call itself. */
  lemma FlatPathLoops(sqrt: Sqrt, points: seq<Point>, tolerance: real)
    requires tolerance < 0.0 && |points| >= 3
    requires forall i :: 0 < i < |points| - 1 ==> Off(sqrt, points, i) <= 0.0
    ensures !Ends(sqrt, points, tolerance)
    ensures Split(sqrt, points).0 > tolerance && Back(sqrt, points) == points
  {
    FarthestUnique(sqrt, points, |points| - 1, 0.0, 0);
  }

  /** Positions of the points that survive. */
  function Kept(sqrt: Sqrt, points: seq<Point>, tolerance: real): seq<nat>
    requires Ends(sqrt, points, tolerance)
    decreases |points|
  {
    if |points| < 3 then Identity(|points|)
    else if Split(sqrt, points).0 <= tolerance then [0, |points| - 1]
    else Join(Kept(sqrt, Front(sqrt, points), tolerance), Kept(sqrt, Back(sqrt, points), tolerance),
              Split(sqrt, points).1)
  }

  function Identity(n: nat): seq<nat> {
    seq(n, i => i)
  }

  function ButLast<T>(s: seq<T>): seq<T> {
    if s == [] then [] else s[..|s| - 1]
  }

  /** Positions in the two halves, put together; the shared point is counted once. */
  function Join(left: seq<nat>, right: seq<nat>, m: nat): seq<nat> {
    ButLast(left) + seq(|right|, i requires 0 <= i < |right| => right[i] + m)
  }

  ghost predicate Within(positions: seq<nat>, n: nat) {
    forall i :: 0 <= i < |positions| ==> positions[i] < n
  }

  function Select(points: seq<Point>, positions: seq<nat>): seq<Point>
    requires Within(positions, |points|)
  {
    seq(|positions|, i requires 0 <= i < |positions| => points[positions[i]])
  }

  /** A subsequence that keeps both ends. */
  ghost predicate KeepsEnds(positions: seq<nat>, n: nat) {
    && Within(positions, n)
    && (forall i, j :: 0 <= i < j < |positions| ==> positions[i] < positions[j])
    && (n == 0 <==> positions == [])
    && (n > 0 ==> positions[0] == 0 && positions[|positions| - 1] == n - 1)
    && (n >= 2 ==> |positions| >= 2)
  }

  /** Every dropped point lies within the tolerance of the line through the kept points around it. */
  ghost predicate GapsWithin(sqrt: Sqrt, points: seq<Point>, positions: seq<nat>, tolerance: real)
    requires Within(positions, |points|)
  {
    forall i :: 0 < i < |positions| ==> GapWithin(sqrt, points, positions[i - 1], positions[i], tolerance)
  }

  ghost predicate GapWithin(sqrt: Sqrt, points: seq<Point>, a: nat, b: nat, tolerance: real)
    requires a < |points| && b < |points|
  {
    forall p :: a < p < b ==> PerpendicularDistance(sqrt, points[p], points[a], points[b]) <= tolerance
  }

  lemma {:induction false} KeptKeepsEnds(sqrt: Sqrt, points: seq<Point>, tolerance: real)
    requires Ends(sqrt, points, tolerance)
    ensures KeepsEnds(Kept(sqrt, points, tolerance), |points|)
    decreases |points|
  {
    hide Front, Back, Farthest, FirstMaximum, Join;
    if |points| >= 3 && Split(sqrt, points).0 > tolerance {
      HalfSizes(sqrt, points);
      KeptKeepsEnds(sqrt, Front(sqrt, points), tolerance);
      KeptKeepsEnds(sqrt, Back(sqrt, points), tolerance);
      JoinKeepsEnds(Kept(sqrt, Front(sqrt, points), tolerance), Kept(sqrt, Back(sqrt, points), tolerance),
                    Split(sqrt, points).1, |points|);
    }
  }

  lemma HalfSizes(sqrt: Sqrt, points: seq<Point>)
    requires |points| >= 3
    ensures |Front(sqrt, points)| == Split(sqrt, points).1 + 1
      && |Back(sqrt, points)| == |points| - Split(sqrt, points).1
  {
  }

  lemma JoinKeepsEnds(left: seq<nat>, right: seq<nat>, m: nat, n: nat)
    requires 0 < m < n - 1 && KeepsEnds(left, m + 1) && KeepsEnds(right, n - m)
    ensures KeepsEnds(Join(left, right, m), n)
  {
  }

  lemma {:induction false} KeptGapsWithin(sqrt: Sqrt, points: seq<Point>, tolerance: real)
    requires Ends(sqrt, points, tolerance)
    ensures Within(Kept(sqrt, points, tolerance), |points|)
    ensures GapsWithin(sqrt, points, Kept(sqrt, points, tolerance), tolerance)
    decreases |points|
  {
    hide PerpendicularDistance, Farthest, FirstMaximum;
    KeptKeepsEnds(sqrt, points, tolerance);
    if |points| >= 3 && Split(sqrt, points).0 > tolerance {
      var front, back := Front(sqrt, points), Back(sqrt, points);
      KeptGapsWithin(sqrt, front, tolerance);
      KeptGapsWithin(sqrt, back, tolerance);
      KeptKeepsEnds(sqrt, front, tolerance);
      KeptKeepsEnds(sqrt, back, tolerance);
      JoinGapsWithin(sqrt, points, Kept(sqrt, front, tolerance), Kept(sqrt, back, tolerance), Split(sqrt, points).1,
        tolerance);
    } else if |points| >= 3 {
      EndsGapWithin(sqrt, points, tolerance);
    }
  }

  lemma EndsGapWithin(sqrt: Sqrt, points: seq<Point>, tolerance: real)
    requires |points| >= 3 && Split(sqrt, points).0 <= tolerance
    ensures GapsWithin(sqrt, points, [0, |points| - 1], tolerance)
  {
    hide PerpendicularDistance;
    forall p | 0 < p < |points| - 1
      ensures PerpendicularDistance(sqrt, points[p], points[0], points[|points| - 1]) <= tolerance
    {
      FarthestIsFirst(sqrt, points, |points| - 1);
      assert Off(sqrt, points, p) <= Split(sqrt, points).0;
    }
    assert GapWithin(sqrt, points, 0, |points| - 1, tolerance);
  }

  lemma JoinGapsWithin(sqrt: Sqrt, points: seq<Point>, left: seq<nat>, right: seq<nat>, m: nat, tolerance: real)
    requires 0 < m < |points| - 1 && KeepsEnds(left, m + 1) && KeepsEnds(right, |points| - m)
    requires GapsWithin(sqrt, points[..m + 1], left, tolerance) && GapsWithin(sqrt, points[m..], right, tolerance)
    ensures Within(Join(left, right, m), |points|)
    ensures GapsWithin(sqrt, points, Join(left, right, m), tolerance)
  {
    hide PerpendicularDistance, Join;
    var all := Join(left, right, m);
    JoinKeepsEnds(left, right, m, |points|);
    JoinElements(left, right, m, |points|);
    forall i | 0 < i < |all|
      ensures GapWithin(sqrt, points, all[i - 1], all[i], tolerance)
    {
      if i < |left| {
        FrontGap(sqrt, points, m, left[i - 1], left[i], tolerance);
      } else {
        var j := i - (|left| - 1);
        ShiftGap(sqrt, points, m, right[j - 1], right[j], tolerance);
      }
    }
  }

  /** The elements of a join, seen from the left half and from the right half; both see the shared point. */
  lemma JoinElements(left: seq<nat>, right: seq<nat>, m: nat, n: nat)
    requires 0 < m < n - 1 && KeepsEnds(left, m + 1) && KeepsEnds(right, n - m)
    ensures var all := Join(left, right, m);
      && |all| == |left| - 1 + |right| && |left| >= 2 && |right| >= 2
      && (forall i :: 0 <= i < |left| ==> all[i] == left[i])
      && (forall i :: |left| - 1 <= i < |all| ==> all[i] == right[i - (|left| - 1)] + m)
  {
  }

  lemma FrontGap(sqrt: Sqrt, points: seq<Point>, m: nat, a: nat, b: nat, tolerance: real)
    requires m < |points| && a <= m && b <= m && GapWithin(sqrt, points[..m + 1], a, b, tolerance)
    ensures GapWithin(sqrt, points, a, b, tolerance)
  {
    hide PerpendicularDistance;
    forall p | a < p < b
      ensures PerpendicularDistance(sqrt, points[p], points[a], points[b]) <= tolerance
    {
      assert points[..m + 1][p] == points[p];
    }
  }

  lemma ShiftGap(sqrt: Sqrt, points: seq<Point>, m: nat, a: nat, b: nat, tolerance: real)
    requires m < |points| && a < |points| - m && b < |points| - m
    requires GapWithin(sqrt, points[m..], a, b, tolerance)
    ensures GapWithin(sqrt, points, a + m, b + m, tolerance)
  {
    hide PerpendicularDistance;
    forall p | a + m < p < b + m
      ensures PerpendicularDistance(sqrt, points[p], points[a + m], points[b + m]) <= tolerance
    {
      assert points[m..][p - m] == points[p];
    }
  }

  // ----- the simplified path -----

  function Simplified(sqrt: Sqrt, points: seq<Point>, tolerance: real): seq<Point>
    requires Ends(sqrt, points, tolerance)
  {
    KeptKeepsEnds(sqrt, points, tolerance);
    Select(points, Kept(sqrt, points, tolerance))
  }

  lemma SelectEnds(points: seq<Point>, positions: seq<nat>)
    requires KeepsEnds(positions, |points|) && points != []
    ensures var s := Select(points, positions);
      s != [] && s[0] == points[0] && s[|s| - 1] == points[|points| - 1]
  {
  }

  lemma SelectJoin(points: seq<Point>, left: seq<nat>, right: seq<nat>, m: nat)
    requires 0 < m < |points| - 1 && KeepsEnds(left, m + 1) && KeepsEnds(right, |points| - m)
    requires KeepsEnds(Join(left, right, m), |points|)
    ensures Select(points, Join(left, right, m)) == ButLast(Select(points[..m + 1], left)) + Select(points[m..], right)
  {
    JoinElements(left, right, m, |points|);
    var joined, l, r := Select(points, Join(left, right, m)), Select(points[..m + 1], left), Select(points[m..], right);
    forall i | 0 <= i < |joined|
      ensures joined[i] == (ButLast(l) + r)[i]
    {
    }
  }

  /** Simplified paths keep both ends. */
  lemma SimplifiedEnds(sqrt: Sqrt, points: seq<Point>, tolerance: real)
    requires Ends(sqrt, points, tolerance) && points != []
    ensures var s := Simplified(sqrt, points, tolerance);
      s != [] && s[0] == points[0] && s[|s| - 1] == points[|points| - 1] && (|points| >= 2 ==> |s| >= 2)
  {
    hide Kept, Ends, Select;
    KeptKeepsEnds(sqrt, points, tolerance);
    SelectEnds(points, Kept(sqrt, points, tolerance));
    SelectSize(points, Kept(sqrt, points, tolerance));
  }

  lemma SelectSize(points: seq<Point>, positions: seq<nat>)
    requires KeepsEnds(positions, |points|)
    ensures Within(positions, |points|) && |Select(points, positions)| == |positions|
  {
  }

  /** Simplifying splits at a kept point and simplifies both halves. */
  lemma SimplifiedSplits(sqrt: Sqrt, points: seq<Point>, tolerance: real)
    requires Ends(sqrt, points, tolerance) && |points| >= 3 && Split(sqrt, points).0 > tolerance
    ensures Simplified(sqrt, points, tolerance)
      == ButLast(Simplified(sqrt, Front(sqrt, points), tolerance)) + Simplified(sqrt, Back(sqrt, points), tolerance)
  {
    hide KeepsEnds, Select, Join, Within, Farthest, FirstMaximum;
    var m := Split(sqrt, points).1;
    var left, right := Kept(sqrt, Front(sqrt, points), tolerance), Kept(sqrt, Back(sqrt, points), tolerance);
    KeptKeepsEnds(sqrt, Front(sqrt, points), tolerance);
    KeptKeepsEnds(sqrt, Back(sqrt, points), tolerance);
    KeptKeepsEnds(sqrt, points, tolerance);
    SelectJoin(points, left, right, m);
  }

  /** The split point is still the first maximum of the simplified path. */
  lemma SplitRecurs(sqrt: Sqrt, points: seq<Point>, tolerance: real)
    requires Ends(sqrt, points, tolerance) && |points| >= 3 && Split(sqrt, points).0 > tolerance
    ensures var s := Simplified(sqrt, points, tolerance);
      |s| >= 3 && Split(sqrt, s) == (Split(sqrt, points).0, |Simplified(sqrt, Front(sqrt, points), tolerance)| - 1)
  {
    hide Select, Off, Kept, Front, Back, Join, KeepsEnds, FirstMaximum, Farthest;
    var (d, m) := Split(sqrt, points);
    var left, right := Kept(sqrt, Front(sqrt, points), tolerance), Kept(sqrt, Back(sqrt, points), tolerance);
    HalfSizes(sqrt, points);
    KeptKeepsEnds(sqrt, Front(sqrt, points), tolerance);
    KeptKeepsEnds(sqrt, Back(sqrt, points), tolerance);
    KeptKeepsEnds(sqrt, points, tolerance);
    KeptSplits(sqrt, points, tolerance);
    SelectSize(Front(sqrt, points), left);
    JoinMeets(left, right, m, |points|);
    FarthestIsFirst(sqrt, points, |points| - 1);
    MaximumSurvives(sqrt, points, Join(left, right, m), |left| - 1, d, m);
  }

  lemma KeptSplits(sqrt: Sqrt, points: seq<Point>, tolerance: real)
    requires Ends(sqrt, points, tolerance) && |points| >= 3 && Split(sqrt, points).0 > tolerance
    ensures Kept(sqrt, points, tolerance)
      == Join(Kept(sqrt, Front(sqrt, points), tolerance), Kept(sqrt, Back(sqrt, points), tolerance),
        Split(sqrt, points).1)
  {
    hide Join, Split;
  }

  /** Both halves meet at the split point. */
  lemma JoinMeets(left: seq<nat>, right: seq<nat>, m: nat, n: nat)
    requires 0 < m < n - 1 && KeepsEnds(left, m + 1) && KeepsEnds(right, n - m)
    ensures var joined := Join(left, right, m);
      0 < |left| - 1 < |joined| - 1 && joined[|left| - 1] == m
  {
  }

  lemma MaximumSurvives(sqrt: Sqrt, points: seq<Point>, kept: seq<nat>, j: nat, d: real, m: nat)
    requires |points| >= 3 && 0 < m && FirstMaximum(sqrt, points, |points| - 1, d, m)
    requires KeepsEnds(kept, |points|) && 0 < j < |kept| - 1 && kept[j] == m
    ensures var s := Select(points, kept);
      |s| >= 3 && Split(sqrt, s) == (d, j)
  {
    hide Off, KeepsEnds, Select, FirstMaximum, Farthest;
    SelectSize(points, kept);
    var s := Select(points, kept);
    forall i | 1 <= i < |s| - 1
      ensures Off(sqrt, s, i) == Off(sqrt, points, kept[i]) && 1 <= kept[i] < |points| - 1 && (i < j ==> kept[i] < m)
    {
      SurvivorOff(sqrt, points, kept, i, j);
    }
    SurvivorIsMaximum(sqrt, points, s, kept, j, d, m);
    FarthestUnique(sqrt, s, |s| - 1, d, j);
  }

  /** A kept interior point is interior in the simplified path too, and as far from the line between the same ends. */
  lemma SurvivorOff(sqrt: Sqrt, points: seq<Point>, kept: seq<nat>, i: nat, j: nat)
    requires |points| >= 3 && KeepsEnds(kept, |points|) && 1 <= i < |kept| - 1 && j < |kept|
    ensures 1 <= kept[i] < |points| - 1 && (i < j ==> kept[i] < kept[j])
    ensures |Select(points, kept)| == |kept| && Off(sqrt, Select(points, kept), i) == Off(sqrt, points, kept[i])
  {
    hide PerpendicularDistance;
    SelectEnds(points, kept);
    assert kept[0] < kept[i] < kept[|kept| - 1];
  }

  lemma SurvivorIsMaximum(sqrt: Sqrt, points: seq<Point>, s: seq<Point>, kept: seq<nat>, j: nat, d: real, m: nat)
    requires |points| >= 3 && |s| >= 3 && |kept| == |s|
    requires 0 < m && FirstMaximum(sqrt, points, |points| - 1, d, m)
    requires 0 < j < |s| - 1 && kept[j] == m
    requires forall i :: 1 <= i < |s| - 1 ==>
      1 <= kept[i] < |points| - 1 && Off(sqrt, s, i) == Off(sqrt, points, kept[i]) && (i < j ==> kept[i] < m)
    ensures FirstMaximum(sqrt, s, |s| - 1, d, j)
  {
    hide Off;
  }

  /** Simplifying twice changes nothing more. */
  lemma {:induction false} SimplifyIdempotent(sqrt: Sqrt, points: seq<Point>, tolerance: real)
    requires Ends(sqrt, points, tolerance)
    ensures Ends(sqrt, Simplified(sqrt, points, tolerance), tolerance)
    ensures Simplified(sqrt, Simplified(sqrt, points, tolerance), tolerance) == Simplified(sqrt, points, tolerance)
    decreases |points|
  {
    hide Kept, Split, Select;
    if |points| < 3 {
      ShortIsFixed(sqrt, points, tolerance);
    } else if Split(sqrt, points).0 > tolerance {
      SimplifyIdempotent(sqrt, Front(sqrt, points), tolerance);
      SimplifyIdempotent(sqrt, Back(sqrt, points), tolerance);
      SplitIdempotent(sqrt, points, tolerance);
    } else {
      FlatIsEnds(sqrt, points, tolerance);
      ShortIsFixed(sqrt, Simplified(sqrt, points, tolerance), tolerance);
    }
  }

  /** A recursion that does end for a negative tolerance drops nothing. */
  lemma {:induction false} NegativeKeepsAll(sqrt: Sqrt, points: seq<Point>, tolerance: real)
    requires tolerance < 0.0 && Ends(sqrt, points, tolerance)
    ensures Simplified(sqrt, points, tolerance) == points
    decreases |points|
  {
    hide Simplified, Farthest;
    if |points| < 3 {
      ShortIsFixed(sqrt, points, tolerance);
    } else {
      NegativeKeepsAll(sqrt, Front(sqrt, points), tolerance);
      NegativeKeepsAll(sqrt, Back(sqrt, points), tolerance);
      SimplifiedSplits(sqrt, points, tolerance);
      HalvesMeet(points, Split(sqrt, points).1);
    }
  }

  lemma HalvesMeet(points: seq<Point>, m: nat)
    requires m < |points|
    ensures ButLast(points[..m + 1]) + points[m..] == points
  {
  }

  lemma ShortIsFixed(sqrt: Sqrt, points: seq<Point>, tolerance: real)
    requires |points| < 3
    ensures Ends(sqrt, points, tolerance) && Simplified(sqrt, points, tolerance) == points
  {
  }

  lemma FlatIsEnds(sqrt: Sqrt, points: seq<Point>, tolerance: real)
    requires |points| >= 3 && Ends(sqrt, points, tolerance) && Split(sqrt, points).0 <= tolerance
    ensures Simplified(sqrt, points, tolerance) == [points[0], points[|points| - 1]]
  {
  }

  lemma SplitIdempotent(sqrt: Sqrt, points: seq<Point>, tolerance: real)
    requires Ends(sqrt, points, tolerance) && |points| >= 3 && Split(sqrt, points).0 > tolerance
    requires var left := Simplified(sqrt, Front(sqrt, points), tolerance);
      var right := Simplified(sqrt, Back(sqrt, points), tolerance);
      && Ends(sqrt, left, tolerance) && Simplified(sqrt, left, tolerance) == left
      && Ends(sqrt, right, tolerance) && Simplified(sqrt, right, tolerance) == right
    ensures var s := Simplified(sqrt, points, tolerance);
      Ends(sqrt, s, tolerance) && Simplified(sqrt, s, tolerance) == s
  {
    hide Simplified, Split;
    var s := Simplified(sqrt, points, tolerance);
    var left := Simplified(sqrt, Front(sqrt, points), tolerance);
    var right := Simplified(sqrt, Back(sqrt, points), tolerance);
    SimplifiedSplits(sqrt, points, tolerance);
    SplitRecurs(sqrt, points, tolerance);
    SimplifiedEnds(sqrt, Front(sqrt, points), tolerance);
    SimplifiedEnds(sqrt, Back(sqrt, points), tolerance);
    assert Front(sqrt, s) == left && Back(sqrt, s) == right;
    SimplifiedSplits(sqrt, s, tolerance);
  }

  // ----- the program -----

  method DouglasPeucker(sqrt: Sqrt, points: seq<Point>, tolerance: real) returns (result: seq<Point>)
    requires Ends(sqrt, points, tolerance)
    ensures result == Simplified(sqrt, points, tolerance)
    decreases |points|
  {
    if |points| < 3 {
      ShortIsFixed(sqrt, points, tolerance);
      return points;
    }
    var maxDist, maxIdx := FindSplit(sqrt, points);
    if maxDist > tolerance {
      hide Split, Simplified;
      SimplifiedSplits(sqrt, points, tolerance);
      SimplifiedEnds(sqrt, Front(sqrt, points), tolerance);
      var result1 := DouglasPeucker(sqrt, points[..maxIdx + 1], tolerance);
      var result2 := DouglasPeucker(sqrt, points[maxIdx..], tolerance);
      result := result1[..|result1| - 1] + result2;
    } else {
      FlatIsEnds(sqrt, points, tolerance);
      result := [points[0], points[|points| - 1]];
    }
  }

  /** The scan for the point farthest from the line between the ends. */
  method FindSplit(sqrt: Sqrt, points: seq<Point>) returns (maxDist: real, maxIdx: nat)
    requires |points| >= 3
    ensures FirstMaximum(sqrt, points, |points| - 1, maxDist, maxIdx)
    ensures (maxDist, maxIdx) == Split(sqrt, points)
  {
    hide PerpendicularDistance, FirstMaximum;
    maxDist, maxIdx := 0.0, 0;
    for i := 1 to |points| - 1
      invariant (maxDist, maxIdx) == Farthest(sqrt, points, i)
    {
      var dist := PerpendicularDistance(sqrt, points[i], points[0], points[|points| - 1]);
      if dist > maxDist {
        maxDist, maxIdx := dist, i;
      }
    }
    FarthestIsFirst(sqrt, points, |points| - 1);
  }

  // ----- lengths -----

  function TotalLength(sqrt: Sqrt, points: seq<Point>): real {
    if |points| < 2 then 0.0 else Distance(sqrt, points[0], points[1]) + TotalLength(sqrt, points[1..])
  }

  /** Lengths add up at any waypoint. */
  lemma {:induction false} LengthSplits(sqrt: Sqrt, points: seq<Point>, i: nat)
    requires i < |points|
    ensures TotalLength(sqrt, points) == TotalLength(sqrt, points[..i + 1]) + TotalLength(sqrt, points[i..])
  {
    hide Distance;
    if i > 0 {
      LengthSplits(sqrt, points[1..], i - 1);
      assert points[1..][..i] == points[..i + 1][1..];
      assert points[1..][i - 1..] == points[i..];
    } else {
      assert points[0..] == points;
    }
  }

  class Path {
    const sqrt: Sqrt
    const targetId: nat
    var waypoints: seq<Point>
    var totalLength: real

    /** The stored length is the length of the waypoints. */
    ghost predicate Valid()
      reads this
    {
      totalLength == TotalLength(sqrt, waypoints)
    }

    constructor (sqrt: Sqrt, waypoints: seq<Point>, targetId: nat)
      ensures Valid() && this.sqrt == sqrt && this.waypoints == waypoints && this.targetId == targetId
    {
      this.sqrt := sqrt;
      this.targetId := targetId;
      this.waypoints := waypoints;
      this.totalLength := TotalLength(sqrt, waypoints);
    }

    function RemainingLength(fromIndex: nat): real
      reads this
    {
      if fromIndex >= |waypoints| then 0.0 else TotalLength(sqrt, waypoints[fromIndex..])
    }

    /** Drop the first waypoints; what is left is exactly as long as the remaining length was. */
    method PruneUpTo(index: nat)
      requires Valid()
      modifies this
      ensures Valid()
      ensures waypoints == if index < |old(waypoints)| then old(waypoints)[index..] else []
      ensures totalLength == old(RemainingLength(index))
    {
      if 0 < index < |waypoints| {
        waypoints := waypoints[index..];
        totalLength := TotalLength(sqrt, waypoints);
      } else if index >= |waypoints| {
        waypoints := [];
        totalLength := 0.0;
      }
      assert old(waypoints)[0..] == old(waypoints);
    }

    /** Simplify in place; a second call leaves the path alone. */
    method Simplify(tolerance: real)
      requires Valid() && Ends(sqrt, waypoints, tolerance)
      modifies this
      ensures Valid()
      ensures waypoints == Simplified(sqrt, old(waypoints), tolerance)
      ensures Ends(sqrt, waypoints, tolerance) && Simplified(sqrt, waypoints, tolerance) == waypoints
    {
      SimplifyIdempotent(sqrt, waypoints, tolerance);
      if |waypoints| < 3 {
        return;
      }
      waypoints := DouglasPeucker(sqrt, waypoints, tolerance);
      totalLength := TotalLength(sqrt, waypoints);
    }
  }
}

/** From waypoints to drivable segments: straight lines, with turns on the spot where the heading changes sharply. */
module Smoothing {
  import opened Grids
  import opened Angles
  import opened Bresenham
  import opened CostMaps
  import opened LineQueries
  import opened Planning

  datatype PathSegment = Line(start: Point, end: Point) | PointTurn(position: Point, fromAngle: real, toAngle: real) {
    function StartPoint(): Point {
      if Line? then start else position
    }

    function EndPoint(): Point {
      if Line? then end else position
    }
  }

  /** A time in seconds; `None` stands for the infinity, or the NaN, of a division by zero. */
  type Seconds = Option<real>

  datatype SmoothedPath = SmoothedPath(segments: seq<PathSegment>, totalLength: real, estimatedTime: Seconds)

  /** Thresholds and speeds; `norm` and `atan2` stand for the program's square root and arc tangent. */
  datatype Smoother = Smoother(maxLinearVel: real, maxAngularVel: real, arcTurnThreshold: real,
                               sharpTurnThreshold: real, norm: (real, real) -> real,
                               atan2: (real, real) -> real)

  function SegmentSpan(s: Smoother, segment: PathSegment): real {
    if segment.Line? then SegmentLength(s.norm, segment.start, segment.end) else 0.0
  }

  function SpanSum(s: Smoother, segments: seq<PathSegment>): real {
    if segments == [] then 0.0 else SpanSum(s, segments[..|segments| - 1]) + SegmentSpan(s, segments[|segments| - 1])
  }

  function Heading(s: Smoother, from: Point, to: Point): real {
    s.atan2(to.y - from.y, to.x - from.x)
  }

  /** The path turns at waypoint `i` by more than the smaller of the two thresholds. */
  predicate TurnsAt(s: Smoother, points: seq<Point>, i: nat)
    requires 0 < i < |points| - 1
  {
    var turn := AbsReal(NormalizeAngle(Heading(s, points[i], points[i + 1]) - Heading(s, points[i - 1], points[i])));
    turn > s.sharpTurnThreshold || turn > s.arcTurnThreshold
  }

  /**
   The segments that leave waypoint `i`: a turn on the spot if one is needed there, then the line to the next waypoint.
   */
  function Leaving(s: Smoother, points: seq<Point>, i: nat): seq<PathSegment>
    requires i + 1 < |points|
  {
    (if i > 0 && TurnsAt(s, points, i) then
       [PointTurn(points[i], Heading(s, points[i - 1], points[i]), Heading(s, points[i], points[i + 1]))]
     else [])
    + [Line(points[i], points[i + 1])]
  }

  /** The segments leaving the first `k` waypoints. */
  function Segments(s: Smoother, points: seq<Point>, k: nat): seq<PathSegment>
    requires k < |points| || k == 0
  {
    if k == 0 then [] else Segments(s, points, k - 1) + Leaving(s, points, k - 1)
  }

  // ----- what smoothing conserves -----

  /** The ends of the line segments, in order. */
  function Lines(segments: seq<PathSegment>): seq<(Point, Point)> {
    if segments == [] then []
    else
      var last := segments[|segments| - 1];
      Lines(segments[..|segments| - 1]) + (if last.Line? then [(last.start, last.end)] else [])
  }

  /** Consecutive waypoints. */
  function Legs(points: seq<Point>, k: nat): seq<(Point, Point)>
    requires k < |points| || k == 0
  {
    seq(k, i requires 0 <= i < k => (points[i], points[i + 1]))
  }

  lemma {:induction false} LinesAppend(a: seq<PathSegment>, b: seq<PathSegment>)
    ensures Lines(a + b) == Lines(a) + Lines(b)
    decreases |b|
  {
    if b == [] {
      assert a + b == a;
    } else {
      var front := b[..|b| - 1];
      LinesAppend(a, front);
      assert (a + b)[..|a + b| - 1] == a + front;
    }
  }

  lemma {:induction false} SpanSumAppend(s: Smoother, a: seq<PathSegment>, b: seq<PathSegment>)
    ensures SpanSum(s, a + b) == SpanSum(s, a) + SpanSum(s, b)
    decreases |b|
  {
    if b == [] {
      assert a + b == a;
    } else {
      var front := b[..|b| - 1];
      SpanSumAppend(s, a, front);
      assert (a + b)[..|a + b| - 1] == a + front;
    }
  }

  lemma LinesOfLeaving(s: Smoother, points: seq<Point>, i: nat)
    requires i + 1 < |points|
    ensures Lines(Leaving(s, points, i)) == [(points[i], points[i + 1])]
    ensures SpanSum(s, Leaving(s, points, i)) == SegmentLength(s.norm, points[i], points[i + 1])
  {
    hide TurnsAt, Heading, SegmentLength;
    var line := Line(points[i], points[i + 1]);
    var leaving := Leaving(s, points, i);
    var turns := leaving[..|leaving| - 1];
    LinesAppend(turns, [line]);
    SpanSumAppend(s, turns, [line]);
    assert leaving == turns + [line];
    assert turns == [] || (|turns| == 1 && turns[0].PointTurn? && turns[..0] == []);
    assert [line][..0] == [];
  }

  /** The lines are exactly the legs between consecutive waypoints, and no length is lost or added. */
  lemma {:induction false} SegmentsConserve(s: Smoother, points: seq<Point>, k: nat)
    requires k < |points|
    ensures Lines(Segments(s, points, k)) == Legs(points, k)
    ensures SpanSum(s, Segments(s, points, k)) == PolylineLength(s.norm, points[..k + 1])
  {
    hide SegmentLength, Leaving;
    if k > 0 {
      SegmentsConserve(s, points, k - 1);
      LinesAppend(Segments(s, points, k - 1), Leaving(s, points, k - 1));
      SpanSumAppend(s, Segments(s, points, k - 1), Leaving(s, points, k - 1));
      LinesOfLeaving(s, points, k - 1);
      assert points[..k + 1][..k] == points[..k];
    }
  }

  /** Each segment starts where the one before it ended. */
  ghost predicate Chained(segments: seq<PathSegment>) {
    forall i :: 0 < i < |segments| ==> segments[i - 1].EndPoint() == segments[i].StartPoint()
  }

  ghost predicate TurnsInside(points: seq<Point>, segments: seq<PathSegment>) {
    forall j :: 0 <= j < |segments| && segments[j].PointTurn? ==>
      exists i :: 0 < i < |points| - 1 && segments[j].position == points[i]
  }

  /** The segments run from the first waypoint to the last without a gap and turn only at interior waypoints. */
  lemma {:induction false} SegmentsChain(s: Smoother, points: seq<Point>, k: nat)
    requires 0 < k < |points|
    ensures var all := Segments(s, points, k);
      all != [] && Chained(all) && all[0].StartPoint() == points[0] && all[|all| - 1].EndPoint() == points[k]
    ensures TurnsInside(points, Segments(s, points, k))
  {
    hide Heading, TurnsAt;
    if k > 1 {
      SegmentsChain(s, points, k - 1);
      assert Segments(s, points, k) == Segments(s, points, k - 1) + Leaving(s, points, k - 1);
    } else {
      assert Segments(s, points, 0) == [];
      assert Segments(s, points, 1) == [Line(points[0], points[1])];
    }
  }

  /** The heading changes by more than the smaller of the two thresholds. */
  predicate Sharp(s: Smoother, from: real, to: real) {
    AbsReal(NormalizeAngle(to - from)) > MinReal(s.sharpTurnThreshold, s.arcTurnThreshold)
  }

  function LineHeading(s: Smoother, line: PathSegment): real
    requires line.Line?
  {
    s.atan2(line.end.y - line.start.y, line.end.x - line.start.x)
  }

  /**
   A turn stands between two lines exactly when the heading changes sharply from one to the other; it stands where they
   meet and turns from the heading of the first to that of the second.
   */
  ghost predicate TurnsWhereSharp(s: Smoother, all: seq<PathSegment>) {
    && (forall j :: 0 <= j < |all| && all[j].PointTurn? ==>
          && 0 < j < |all| - 1 && all[j - 1].Line? && all[j + 1].Line?
          && all[j].position == all[j - 1].end && all[j].position == all[j + 1].start
          && all[j].fromAngle == LineHeading(s, all[j - 1]) && all[j].toAngle == LineHeading(s, all[j + 1])
          && Sharp(s, all[j].fromAngle, all[j].toAngle))
    && (forall j :: 0 < j < |all| && all[j - 1].Line? && all[j].Line? ==>
          !Sharp(s, LineHeading(s, all[j - 1]), LineHeading(s, all[j])))
  }

  lemma {:induction false} SegmentsTurn(s: Smoother, points: seq<Point>, k: nat)
    requires 0 < k < |points|
    ensures var all := Segments(s, points, k);
      && TurnsWhereSharp(s, all)
      && all != [] && all[0] == Line(points[0], points[1]) && all[|all| - 1] == Line(points[k - 1], points[k])
  {
    hide NormalizeAngle;
    if k > 1 {
      SegmentsTurn(s, points, k - 1);
      var before, leaving := Segments(s, points, k - 1), Leaving(s, points, k - 1);
      assert Segments(s, points, k) == before + leaving;
      LeavingTurns(s, points, k - 1, before);
    } else {
      assert Segments(s, points, 0) == [];
      assert Segments(s, points, 1) == [Line(points[0], points[1])];
    }
  }

  lemma LeavingTurns(s: Smoother, points: seq<Point>, i: nat, before: seq<PathSegment>)
    requires 0 < i < |points| - 1 && TurnsWhereSharp(s, before)
    requires before != [] && before[|before| - 1] == Line(points[i - 1], points[i])
    ensures TurnsWhereSharp(s, before + Leaving(s, points, i))
  {
    hide NormalizeAngle;
    var from, to := Heading(s, points[i - 1], points[i]), Heading(s, points[i], points[i + 1]);
    assert TurnsAt(s, points, i) <==> Sharp(s, from, to);
    var all := before + Leaving(s, points, i);
    forall j | 0 <= j < |all| && all[j].PointTurn?
      ensures 0 < j < |all| - 1 && all[j - 1].Line? && all[j + 1].Line?
    {
      assert j < |before| ==> before[j] == all[j];
    }
  }

  /** Line of sight of a plan carries over to every line segment of its smoothed form. */
  lemma SmoothedKeepsSight(s: Smoother, m: CostMap, points: seq<Point>, j: nat)
    requires points != [] && LegsClear(m, points) && j < |Lines(Segments(s, points, |points| - 1))|
    ensures var line := Lines(Segments(s, points, |points| - 1))[j];
      LineClear(m, WorldToGrid(m, line.0), WorldToGrid(m, line.1))
  {
    hide LineClear, WorldToGrid;
    SegmentsConserve(s, points, |points| - 1);
    assert LineClear(m, WorldToGrid(m, points[j + 1 - 1]), WorldToGrid(m, points[j + 1]));
  }

  // ----- the program -----

  function Quotient(span: real, speed: real): Seconds {
    if speed == 0.0 then None else Some(span / speed)
  }

  function Plus(a: Seconds, b: Seconds): Seconds {
    if a.Some? && b.Some? then Some(a.value + b.value) else None
  }

  /** Seconds to drive one segment. */
  function SegmentTime(s: Smoother, segment: PathSegment): Seconds {
    if segment.Line? then Quotient(SegmentLength(s.norm, segment.start, segment.end), s.maxLinearVel)
    else Quotient(AbsReal(NormalizeAngle(segment.toAngle - segment.fromAngle)), s.maxAngularVel)
  }

  function TimeSum(s: Smoother, segments: seq<PathSegment>): Seconds {
    if segments == [] then Some(0.0)
    else Plus(TimeSum(s, segments[..|segments| - 1]), SegmentTime(s, segments[|segments| - 1]))
  }

  /** The sum is a number exactly when no line is driven, and no turn made, at speed zero. */
  lemma {:induction false} TimeIsFinite(s: Smoother, segments: seq<PathSegment>)
    ensures TimeSum(s, segments).Some? <==>
      forall i :: 0 <= i < |segments| ==> (if segments[i].Line? then s.maxLinearVel else s.maxAngularVel) != 0.0
  {
    hide NormalizeAngle, SegmentLength;
    if segments != [] {
      TimeIsFinite(s, segments[..|segments| - 1]);
    }
  }

  /** Radians of all turns. */
  function TurnSum(segments: seq<PathSegment>): real {
    if segments == [] then 0.0
    else
      var last := segments[|segments| - 1];
      TurnSum(segments[..|segments| - 1])
        + (if last.PointTurn? then AbsReal(NormalizeAngle(last.toAngle - last.fromAngle)) else 0.0)
  }

  /** The time is that of the whole length at driving speed and of all turns at turning speed. */
  lemma {:induction false} TimeSplits(s: Smoother, segments: seq<PathSegment>)
    requires s.maxLinearVel != 0.0 && s.maxAngularVel != 0.0
    ensures TimeSum(s, segments) == Some(SpanSum(s, segments) / s.maxLinearVel + TurnSum(segments) / s.maxAngularVel)
  {
    hide NormalizeAngle, SegmentLength;
    if segments != [] {
      var front, last := segments[..|segments| - 1], segments[|segments| - 1];
      TimeSplits(s, front);
      QuotientAdds(SpanSum(s, front), SegmentSpan(s, last), s.maxLinearVel);
      QuotientAdds(TurnSum(front), TurnSum(segments) - TurnSum(front), s.maxAngularVel);
    } else {
      assert 0.0 / s.maxLinearVel == 0.0 && 0.0 / s.maxAngularVel == 0.0;
    }
  }

  lemma QuotientAdds(a: real, b: real, c: real)
    requires c != 0.0
    ensures a / c + b / c == (a + b) / c && 0.0 / c == 0.0
  {
  }

  method EstimateTraversalTime(s: Smoother, segments: seq<PathSegment>) returns (time: Seconds)
    ensures time == TimeSum(s, segments)
    ensures time.Some? <==>
      forall i :: 0 <= i < |segments| ==> (if segments[i].Line? then s.maxLinearVel else s.maxAngularVel) != 0.0
  {
    hide SegmentTime;
    time := Some(0.0);
    for i := 0 to |segments|
      invariant time == TimeSum(s, segments[..i])
    {
      assert segments[..i + 1][..i] == segments[..i];
      time := Plus(time, SegmentTime(s, segments[i]));
    }
    assert segments[..|segments|] == segments;
    TimeIsFinite(s, segments);
  }

  method MeasureSegments(s: Smoother, segments: seq<PathSegment>) returns (length: real)
    ensures length == SpanSum(s, segments)
  {
    hide SegmentSpan;
    length := 0.0;
    for i := 0 to |segments|
      invariant length == SpanSum(s, segments[..i])
    {
      assert segments[..i + 1][..i] == segments[..i];
      length := length + SegmentSpan(s, segments[i]);
    }
    assert segments[..|segments|] == segments;
  }

  /** The smoothed form of a plan: as long as the plan, with segments for every leg. */
  function Smoothed(s: Smoother, path: PlannedPath): SmoothedPath {
    var segments := if |path.waypoints| < 2 then [] else Segments(s, path.waypoints, |path.waypoints| - 1);
    SmoothedPath(segments, PolylineLength(s.norm, path.waypoints), TimeSum(s, segments))
  }

  method Smooth(s: Smoother, path: PlannedPath) returns (smoothed: SmoothedPath)
    ensures smoothed == Smoothed(s, path)
  {
    hide NormalizeAngle, SegmentSpan, SegmentLength, SegmentTime, SpanSum, Legs, Lines;
    if |path.waypoints| < 2 {
      return SmoothedPath([], 0.0, Some(0.0));
    }
    var segments := [];
    for i := 0 to |path.waypoints| - 1
      invariant segments == Segments(s, path.waypoints, i)
    {
      var current, next := path.waypoints[i], path.waypoints[i + 1];
      var incomingHeading := Heading(s, current, next);
      if i > 0 {
        incomingHeading := Heading(s, path.waypoints[i - 1], current);
      }
      var outgoingHeading := Heading(s, current, next);
      var turnAngle := NormalizeAngleByLoops(outgoingHeading - incomingHeading);
      if i > 0 && AbsReal(turnAngle) > s.sharpTurnThreshold {
        segments := segments + [PointTurn(current, incomingHeading, outgoingHeading)];
      } else if i > 0 && AbsReal(turnAngle) > s.arcTurnThreshold {
        segments := segments + [PointTurn(current, incomingHeading, outgoingHeading)];
      }
      segments := segments + [Line(current, next)];
    }
    var totalLength := MeasureSegments(s, segments);
    SegmentsConserve(s, path.waypoints, |path.waypoints| - 1);
    assert path.waypoints[..|path.waypoints|] == path.waypoints;
    var estimatedTime := EstimateTraversalTime(s, segments);
    return SmoothedPath(segments, totalLength, estimatedTime);
  }
}

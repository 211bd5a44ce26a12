/** The path follower: consumes segments whose exit test passes and steers for the first one that is still open. */
module Following {
  import opened Grids
  import opened Angles
  import opened Planning
  import opened Smoothing

  datatype FollowState = Following | Turning | Complete | NoPath

  /** Tolerances, speed limits and gain; `norm` and `atan2` stand for the program's square root and arc tangent. */
  datatype Follower = Follower(waypointTolerance: real, maxLinearVel: real, maxAngularVel: real, kpAngular: real,
                               norm: (real, real) -> real, atan2: (real, real) -> real)

  datatype Velocity = Velocity(linear: real, angular: real)

  const STOP := Velocity(0.0, 0.0)

  function DistanceTo(f: Follower, pose: Pose, target: Point): real {
    SegmentLength(f.norm, pose.At(), target)
  }

  /** The exit test: near enough to the end of a line, or turned to within about ten degrees. */
  predicate Passed(f: Follower, segment: PathSegment, pose: Pose) {
    if segment.Line? then DistanceTo(f, pose, segment.end) < f.waypointTolerance
    else AbsReal(NormalizeAngle(segment.toAngle - pose.theta)) < 0.17
  }

  /** A turn is passed exactly when some angle equal to what is left of it, up to whole turns, is below 0.17. */
  lemma TurnPassedMeans(f: Follower, segment: PathSegment, pose: Pose)
    requires segment.PointTurn?
    ensures Passed(f, segment, pose) <==>
      exists a :: Congruent(a, segment.toAngle - pose.theta) && AbsReal(a) < 0.17
  {
    hide NormalizeAngle, Congruent;
    var error := segment.toAngle - pose.theta;
    NormalizeAngleNormalizes(error);
    if a :| Congruent(a, error) && AbsReal(a) < 0.17 {
      NormalizeAngleSmallest(error, a);
    }
  }

  /** The first segment from `i` on that is still open at this pose; the number of segments when all are passed. */
  function FirstOpen(f: Follower, segments: seq<PathSegment>, i: nat, pose: Pose): (r: nat)
    ensures i < |segments| ==> i <= r <= |segments|
    decreases |segments| - i
  {
    if i >= |segments| || !Passed(f, segments[i], pose) then i else FirstOpen(f, segments, i + 1, pose)
  }

  /** `FirstOpen` skips exactly the passed segments. */
  lemma {:induction false} FirstOpenSkips(f: Follower, segments: seq<PathSegment>, i: nat, pose: Pose)
    requires i <= |segments|
    ensures var r := FirstOpen(f, segments, i, pose);
      && i <= r <= |segments|
      && (forall j :: i <= j < r ==> Passed(f, segments[j], pose))
      && (r < |segments| ==> !Passed(f, segments[r], pose))
    decreases |segments| - i
  {
    hide Passed;
    if i < |segments| && Passed(f, segments[i], pose) {
      FirstOpenSkips(f, segments, i + 1, pose);
    }
  }

  // ----- commands -----

  /** Speed falls off with the heading error, but never to zero. */
  function AngleFactor(error: real): real {
    if error < 0.17 then 1.0
    else if error < 1.57 then 1.0 - 0.8 * (error - 0.17) / (1.57 - 0.17)
    else 0.1 + 0.1 * (PI - error) / (PI - 1.57)
  }

  function DriveCommand(f: Follower, pose: Pose, target: Point): Velocity
    requires f.maxAngularVel >= 0.0
  {
    var distance := DistanceTo(f, pose, target);
    var error := NormalizeAngle(f.atan2(target.y - pose.y, target.x - pose.x) - pose.theta);
    var minForward := if distance > 0.15 then 0.03 else 0.0;
    Velocity(MaxReal(MinReal(distance * 0.8, f.maxLinearVel) * AngleFactor(AbsReal(error)), minForward),
             ClampReal(f.kpAngular * error, f.maxAngularVel))
  }

  function TurnCommand(f: Follower, pose: Pose, target: real): Velocity
    requires f.maxAngularVel >= 0.0
  {
    Velocity(0.0, ClampReal(0.6 * NormalizeAngle(target - pose.theta), f.maxAngularVel * 0.5))
  }

  function Command(f: Follower, segment: PathSegment, pose: Pose): Velocity
    requires f.maxAngularVel >= 0.0
  {
    if segment.Line? then DriveCommand(f, pose, segment.end) else TurnCommand(f, pose, segment.toAngle)
  }

  lemma AngleFactorBounds(error: real)
    requires 0.0 <= error <= PI
    ensures 0.1 <= AngleFactor(error) <= 1.0
  {
    if error >= 1.57 {
      var span, part := PI - 1.57, 0.1 * (PI - error);
      assert part / span * span == part;
    }
  }

  lemma ScaledSpeed(speed: real, factor: real) returns (scaled: real)
    requires 0.1 <= factor <= 1.0
    ensures scaled == speed * factor
    ensures if speed >= 0.0 then 0.0 <= scaled <= speed else scaled < 0.0
  {
    scaled := speed * factor;
    if speed >= 0.0 {
      assert speed * (1.0 - factor) >= 0.0;
    }
  }

  /** Commands respect the speed limits; the robot never backs up, and 0.03 m/s is the floor far from the target. */
  lemma CommandBounds(f: Follower, segment: PathSegment, pose: Pose)
    requires f.maxAngularVel >= 0.0
    ensures var v := Command(f, segment, pose);
      && -f.maxAngularVel <= v.angular <= f.maxAngularVel
      && 0.0 <= v.linear <= MaxReal(f.maxLinearVel, 0.03)
    ensures segment.PointTurn? ==> Command(f, segment, pose).linear == 0.0
  {
    hide NormalizeAngle, Congruent, AngleFactor;
    if segment.Line? {
      var angle := f.atan2(segment.end.y - pose.y, segment.end.x - pose.x) - pose.theta;
      var error := NormalizeAngle(angle);
      NormalizeAngleNormalizes(angle);
      AngleFactorBounds(AbsReal(error));
      var distance := DistanceTo(f, pose, segment.end);
      var speed := MinReal(distance * 0.8, f.maxLinearVel);
      var scaled := ScaledSpeed(speed, AngleFactor(AbsReal(error)));
      assert Command(f, segment, pose).linear == MaxReal(scaled, if distance > 0.15 then 0.03 else 0.0);
    }
  }

  /** The heading error a segment is steered by. */
  function HeadingError(f: Follower, segment: PathSegment, pose: Pose): real {
    if segment.Line? then NormalizeAngle(f.atan2(segment.end.y - pose.y, segment.end.x - pose.x) - pose.theta)
    else NormalizeAngle(segment.toAngle - pose.theta)
  }

  /** The robot turns towards the heading, in proportion to the error up to the limit; without an error, not at all. */
  lemma CommandTurns(f: Follower, segment: PathSegment, pose: Pose)
    requires f.maxAngularVel > 0.0 && f.kpAngular > 0.0
    ensures var error, w := HeadingError(f, segment, pose), Command(f, segment, pose).angular;
      var gain := if segment.Line? then f.kpAngular else 0.6;
      var limit := if segment.Line? then f.maxAngularVel else f.maxAngularVel * 0.5;
      && (error > 0.0 <==> w > 0.0) && (error < 0.0 <==> w < 0.0)
      && (-limit < w < limit ==> w == gain * error)
      && (w == limit ==> gain * error >= limit) && (w == -limit ==> gain * error <= -limit)
  {
    hide NormalizeAngle;
    var error := HeadingError(f, segment, pose);
    var product := Proportional(if segment.Line? then f.kpAngular else 0.6, error);
  }

  lemma Proportional(gain: real, error: real) returns (product: real)
    requires gain > 0.0
    ensures product == gain * error
    ensures (product > 0.0 <==> error > 0.0) && (product < 0.0 <==> error < 0.0)
  {
    product := gain * error;
  }

  /** The speed factor falls with the heading error, from 1 within ten degrees to 0.1 facing away. */
  lemma AngleFactorFalls(a: real, b: real)
    requires 0.0 <= a <= b <= PI
    ensures AngleFactor(a) >= AngleFactor(b)
    ensures a < 0.17 ==> AngleFactor(a) == 1.0
    ensures AngleFactor(PI) == 0.1
  {
    AngleFactorBounds(a);
    AngleFactorBounds(b);
    var span := PI - 1.57;
    if b >= 1.57 {
      QuotientOrder(0.1 * (PI - b), 0.1 * (PI - a), span);
      QuotientOrder(0.1 * (PI - b), 0.1 * span, span);
    }
    assert 0.1 * (PI - PI) / span == 0.0;
  }

  /** Between the corners (0.17, 1), (1.57, 0.2) and (PI, 0.1) the factor runs along straight lines. */
  lemma AngleFactorCorners(error: real)
    requires 0.17 <= error <= PI
    ensures AngleFactor(0.17) == 1.0 && AngleFactor(1.57) == 0.2 && AngleFactor(PI) == 0.1
    ensures error <= 1.57 ==> (1.57 - 0.17) * (AngleFactor(error) - 0.2) == (1.0 - 0.2) * (1.57 - error)
    ensures error >= 1.57 ==> (PI - 1.57) * (AngleFactor(error) - 0.1) == (0.2 - 0.1) * (PI - error)
  {
    var span := PI - 1.57;
    QuotientOrder(0.0, 0.1 * span, span);
    assert 0.1 * (PI - PI) / span == 0.0;
    var q := 0.1 * (PI - error) / span;
    assert q * span == 0.1 * (PI - error);
  }

  lemma QuotientOrder(p: real, q: real, span: real)
    requires span > 0.0 && p <= q
    ensures p / span <= q / span && 0.1 * span / span == 0.1
  {
    assert p / span * span == p && q / span * span == q;
    assert 0.1 * span / span * span == 0.1 * span;
  }

  /**
   Forward speed on a line: held down by the distance, the limit and the heading error; at full share of the first two
   when the heading is right; never below 0.03 m/s while the target is more than 15 cm away.
   */
  lemma DriveSpeed(f: Follower, pose: Pose, target: Point)
    requires f.maxAngularVel >= 0.0 && f.maxLinearVel >= 0.0 && DistanceTo(f, pose, target) >= 0.0
    ensures var distance, v := DistanceTo(f, pose, target), DriveCommand(f, pose, target).linear;
      var full := MinReal(distance * 0.8, f.maxLinearVel);
      && (distance > 0.15 ==> v >= 0.03)
      && v <= MaxReal(full, if distance > 0.15 then 0.03 else 0.0)
      && (AbsReal(HeadingError(f, Line(target, target), pose)) < 0.17 ==>
            v == MaxReal(full, if distance > 0.15 then 0.03 else 0.0))
  {
    hide NormalizeAngle, AngleFactor, DistanceTo, Congruent;
    var angle := f.atan2(target.y - pose.y, target.x - pose.x) - pose.theta;
    NormalizeAngleNormalizes(angle);
    var error := AbsReal(NormalizeAngle(angle));
    AngleFactorBounds(error);
    AngleFactorFalls(error, PI);
    var scaled := ScaledSpeed(MinReal(DistanceTo(f, pose, target) * 0.8, f.maxLinearVel), AngleFactor(error));
  }

  // ----- the follower -----

  datatype State = State(path: Option<SmoothedPath>, currentSegment: nat, state: FollowState) {
    /** A path with no segments is never kept; completion is only ever reported for a path that has been set. */
    predicate Valid() {
      && (path.Some? ==> path.value.segments != [] && currentSegment <= |path.value.segments|)
      && (state == NoPath <==> path.None?)
      && (state == Complete <==> path.Some? && currentSegment == |path.value.segments|)
    }

    function Goal(): Option<Point> {
      if path.Some? && path.value.segments != [] then Some(path.value.segments[|path.value.segments| - 1].EndPoint())
      else None
    }
  }

  const CLEARED := State(None, 0, NoPath)

  function WithPath(p: SmoothedPath): State {
    if p.segments == [] then CLEARED else State(Some(p), 0, FollowState.Following)
  }

  /**
   One control step. The index moves to the first open segment, never back; with none left the follower is complete
   and stops, otherwise it steers for that segment.
   */
  function Steered(f: Follower, s: State, pose: Pose): (r: (State, Velocity))
    requires f.maxAngularVel >= 0.0 && s.Valid()
    ensures r.0.Valid() && r.0.path == s.path && r.0.currentSegment >= s.currentSegment
  {
    if s.path.None? then (s, STOP)
    else
      var segments := s.path.value.segments;
      FirstOpenSkips(f, segments, s.currentSegment, pose);
      var i := FirstOpen(f, segments, s.currentSegment, pose);
      if i == |segments| then (State(s.path, i, Complete), STOP)
      else (State(s.path, i, if segments[i].Line? then FollowState.Following else Turning),
            Command(f, segments[i], pose))
  }

  /** What is left to do of a segment: the way to the end of a line, or the angle of a turn. */
  function Remaining(f: Follower, segment: PathSegment, pose: Pose): real {
    if segment.Line? then f.norm(segment.end.x - pose.x, segment.end.y - pose.y)
    else AbsReal(NormalizeAngle(segment.toAngle - pose.theta))
  }

  function Tolerance(f: Follower, segment: PathSegment): real {
    if segment.Line? then f.waypointTolerance else 0.17
  }

  /** The outcome of a control step, said without the recursion. */
  lemma SteeredOutcome(f: Follower, s: State, pose: Pose)
    requires f.maxAngularVel >= 0.0 && s.Valid() && s.path.Some?
    ensures var segments := s.path.value.segments;
      var (s', v) := Steered(f, s, pose);
      && (forall j :: s.currentSegment <= j < s'.currentSegment ==>
            Remaining(f, segments[j], pose) < Tolerance(f, segments[j]))
      && (s'.currentSegment < |segments| ==>
            && Remaining(f, segments[s'.currentSegment], pose) >= Tolerance(f, segments[s'.currentSegment])
            && s'.state != Complete && v == Command(f, segments[s'.currentSegment], pose))
      && (s'.state == Complete <==> s'.currentSegment == |segments|)
      && (s'.state == Complete ==> v == STOP)
      && -f.maxAngularVel <= v.angular <= f.maxAngularVel
      && 0.0 <= v.linear <= MaxReal(f.maxLinearVel, 0.03)
  {
    hide Command, FirstOpen, NormalizeAngle;
    FirstOpenSkips(f, s.path.value.segments, s.currentSegment, pose);
    var i := FirstOpen(f, s.path.value.segments, s.currentSegment, pose);
    if i < |s.path.value.segments| {
      CommandBounds(f, s.path.value.segments[i], pose);
    }
  }

  class PathFollower {
    const config: Follower
    var path: Option<SmoothedPath>
    var currentSegment: nat
    var state: FollowState

    constructor (config: Follower)
      requires config.maxAngularVel >= 0.0
      ensures this.config == config && Valid() && View() == CLEARED
    {
      this.config := config;
      path, currentSegment, state := None, 0, NoPath;
    }

    function View(): State
      reads this
    {
      State(path, currentSegment, state)
    }

    predicate Valid()
      reads this
    {
      config.maxAngularVel >= 0.0 && View().Valid()
    }

    method SetPath(p: SmoothedPath)
      requires Valid()
      modifies this
      ensures Valid() && View() == WithPath(p)
    {
      if p.segments == [] {
        path, currentSegment, state := None, 0, NoPath;
      } else {
        path, currentSegment, state := Some(p), 0, FollowState.Following;
      }
    }

    method ClearPath()
      requires Valid()
      modifies this
      ensures Valid() && View() == CLEARED
    {
      path, currentSegment, state := None, 0, NoPath;
    }

    predicate IsComplete()
      reads this
    {
      state == Complete
    }

    predicate HasPath()
      reads this
    {
      path.Some? && path.value.segments != []
    }

    function Goal(): Option<Point>
      reads this
    {
      View().Goal()
    }

    method ComputeVelocity(pose: Pose) returns (v: Velocity)
      requires Valid()
      modifies this
      ensures Valid() && (View(), v) == Steered(config, old(View()), pose)
      decreases if path.Some? then |path.value.segments| - currentSegment else 0, 1
    {
      hide Passed, Command;
      if path.None? {
        state := NoPath;
        return STOP;
      }
      if currentSegment >= |path.value.segments| {
        state := Complete;
        return STOP;
      }
      var segment := path.value.segments[currentSegment];
      match segment
      case Line(_, end) =>
        v := FollowLine(pose, end);
      case PointTurn(_, _, toAngle) =>
        v := ExecutePointTurn(pose, toAngle);
    }

    method FollowLine(pose: Pose, end: Point) returns (v: Velocity)
      requires Valid() && path.Some? && currentSegment < |path.value.segments|
      requires path.value.segments[currentSegment].Line? && path.value.segments[currentSegment].end == end
      modifies this
      ensures Valid() && (View(), v) == Steered(config, old(View()), pose)
      decreases |path.value.segments| - currentSegment, 0
    {
      hide DriveCommand, TurnCommand, NormalizeAngle;
      if DistanceTo(config, pose, end) < config.waypointTolerance {
        AdvanceSegment();
        v := ComputeVelocity(pose);
        return;
      }
      state := FollowState.Following;
      v := DriveCommand(config, pose, end);
    }

    method ExecutePointTurn(pose: Pose, toAngle: real) returns (v: Velocity)
      requires Valid() && path.Some? && currentSegment < |path.value.segments|
      requires path.value.segments[currentSegment].PointTurn? && path.value.segments[currentSegment].toAngle == toAngle
      modifies this
      ensures Valid() && (View(), v) == Steered(config, old(View()), pose)
      decreases |path.value.segments| - currentSegment, 0
    {
      hide DriveCommand, NormalizeAngle;
      var angleError := NormalizeAngleByLoops(toAngle - pose.theta);
      if AbsReal(angleError) < 0.17 {
        AdvanceSegment();
        v := ComputeVelocity(pose);
        return;
      }
      state := Turning;
      v := Velocity(0.0, ClampReal(0.6 * angleError, config.maxAngularVel * 0.5));
    }

    method AdvanceSegment()
      requires Valid() && path.Some? && currentSegment < |path.value.segments|
      modifies this
      ensures Valid() && path == old(path) && currentSegment == old(currentSegment) + 1
    {
      currentSegment := currentSegment + 1;
      if currentSegment >= |path.value.segments| {
        state := Complete;
      } else {
        state := FollowState.Following;
      }
    }
  }
}

/** What one update of the navigator does, state by state, for every planner that tags its paths. */
module NavSteps {
  import opened Grids
  import opened Angles
  import opened NavModel

  /** Paths come back nonempty and under the id of the target they were asked for. */
  ghost predicate Tagged(t: Tick) {
    forall target :: t.plan(target).Planned? ==>
      t.plan(target).route.targetId == target.id && t.plan(target).route.waypoints != []
  }

  /** Following a path in one way or another. */
  predicate OnPath(n: Nav) {
    n.status == Navigating || n.status == Escaping || n.status == RotatingToHeading
  }

  predicate Resting(n: Nav) {
    n.status == Idle || n.status == TargetReached || n.status == Cancelled
  }

  /**
   The queue is empty exactly in the resting states. On a path there is a path to the front target, the waypoint
   index is in range, and a replan is left.
   */
  ghost predicate Inv(c: Config, n: Nav) {
    && (n.queue == [] <==> Resting(n))
    && (OnPath(n) ==>
          && n.path.Some? && n.path.value.targetId == n.queue[0].id
          && n.index < |n.path.value.waypoints|
          && n.replans < c.maxReplans)
    && n.replans <= c.maxReplans
    && (n.status == PlanningPath ==> n.needsReplan)
    && (OnPath(n) ==> !n.needsReplan)
  }

  lemma QueueOperationsKeepInv(c: Config, n: Nav, targets: seq<Target>)
    requires Inv(c, n)
    ensures Inv(c, EMPTY) && Inv(c, PushTargets(n, targets)) && Inv(c, PopTarget(n)) && Inv(c, ClearTargets(n))
      && Inv(c, Reset(n))
  {
  }

  /** In a state with the invariant the waypoint lookup succeeds, so navigating never replans for want of a waypoint. */
  lemma WaypointAvailable(c: Config, n: Nav)
    requires Inv(c, n) && n.status == Navigating
    ensures CurrentWaypoint(n).Some?
  {
  }

  /** With a true length, the distance between two points is zero exactly when they coincide. */
  lemma ApartZero(c: Config, a: Point, b: Point)
    requires forall x, y :: c.norm(x, y) == 0.0 <==> x == 0.0 && y == 0.0
    ensures Apart(c, a, b) == 0.0 <==> a == b
  {
  }

  // ----- planning -----

  /**
   Planning keeps queue and count. It ends on a fresh path to the front target exactly when an attempt is left, there
   is a map and the planner finds a path; otherwise it fails, for the first of the three that is missing.
   */
  ghost predicate PlanningStep(c: Config, s: System, t: Tick, s': System, v: Command)
    requires s.nav.queue != []
  {
    var before, after, answer := s.nav, s'.nav, t.plan(s.nav.queue[0]);
    && Inv(c, after) && v == STOPPED
    && after.queue == before.queue && after.replans == before.replans
    && if before.replans < c.maxReplans && t.hasMap && answer.Planned? then
         && after.status == Navigating && after.path == Some(answer.route) && after.index == 0
         && s'.lastPosition == Some(t.pose.At()) && s'.lastProgress == t.now
       else
         && after.status == Failed && after.path == before.path
         && s'.lastPosition == s.lastPosition && s'.lastProgress == s.lastProgress
         && after.failure == Some(
              if before.replans >= c.maxReplans then PathBlocked(before.replans)
              else if t.hasMap && answer.error == GoalInObstacle then TargetInvalid
              else NoPathFound)
  }

  lemma PlanningKeepsInv(c: Config, s: System, t: Tick)
    requires Tagged(t) && Inv(c, s.nav) && s.nav.status == PlanningPath
    ensures PlanningStep(c, s, t, HandlePlanning(c, s, t).0, HandlePlanning(c, s, t).1)
  {
  }

  // ----- finishing a target -----

  /** The front target is done; the next is planned with a fresh count, or, with none left, the count stays. */
  ghost predicate CompletedFront(before: Nav, after: Nav)
    requires before.queue != []
  {
    && after.queue == before.queue[1..] && after.completed == before.completed + 1
    && after.status == (if after.queue == [] then TargetReached else PlanningPath)
    && after.replans == (if after.queue == [] then before.replans else 0)
  }

  lemma CompletesFront(s: System)
    requires s.nav.queue != []
    ensures CompletedFront(s.nav, CompleteTarget(s).0.nav)
  {
  }

  /** The heading is reached exactly when some angle equal to the error up to whole turns is within the tolerance. */
  lemma HeadingReachedMeans(target: Target, theta: real)
    requires target.heading.Some?
    ensures HeadingReached(target, theta) <==>
      exists a :: Congruent(a, target.heading.value - theta) && AbsReal(a) < target.headingTolerance
  {
    hide NormalizeAngle, Congruent;
    var error := target.heading.value - theta;
    NormalizeAngleNormalizes(error);
    if a :| Congruent(a, error) && AbsReal(a) < target.headingTolerance {
      NormalizeAngleSmallest(error, a);
    }
  }

  // ----- navigating -----

  /** Within the threshold of the waypoint the robot is heading for. */
  predicate AtWaypoint(c: Config, n: Nav, pose: Pose)
    requires n.path.Some? && n.index < |n.path.value.waypoints|
  {
    Apart(c, pose.At(), n.path.value.waypoints[n.index]) < c.waypointThreshold
  }

  /** Within the target's tolerance, or at the last waypoint and not much farther than the waypoint threshold. */
  predicate Arriving(c: Config, n: Nav, pose: Pose)
    requires n.queue != [] && n.path.Some? && n.index < |n.path.value.waypoints|
  {
    var target := n.queue[0];
    || Apart(c, pose.At(), target.position) < target.positionTolerance
    || (n.index + 1 == |n.path.value.waypoints| && AtWaypoint(c, n, pose)
        && Apart(c, pose.At(), target.position) < c.waypointThreshold * 1.5)
  }

  /** Farther from where progress was last seen than the threshold, or nowhere to compare with. */
  predicate Progressing(c: Config, s: System, t: Tick) {
    s.lastPosition.None? || Apart(c, s.lastPosition.value, t.pose.At()) > c.progressThreshold
  }

  /**
   One update on the way along the path. The front target is completed, or the robot turns to its heading, exactly when
   it arrives. The index moves by one exactly at a waypoint that another one follows. Between waypoints the robot gives
   up exactly when it has made no progress for the timeout. Otherwise it steers for the waypoint at the index. The
   replan count never changes.
   */
  ghost predicate NavigatingStep(c: Config, s: System, t: Tick, s': System, v: Command)
    requires c.Usable() && s.nav.queue != [] && s.nav.path.Some? && s.nav.index < |s.nav.path.value.waypoints|
  {
    var before, after, target, waypoints := s.nav, s'.nav, s.nav.queue[0], s.nav.path.value.waypoints;
    var arriving, passing := Arriving(c, before, t.pose), AtWaypoint(c, before, t.pose);
    && Inv(c, after)
    && (if arriving && HeadingReached(target, t.pose.theta) then CompletedFront(before, after) && v == STOPPED
        else
          && after.queue == before.queue && after.path == before.path && after.replans == before.replans
          && after.index == before.index + (if !arriving && passing && before.index + 1 < |waypoints| then 1 else 0)
          && (after.status == RotatingToHeading <==> arriving)
          && (after.status == Failed <==>
                !arriving && !passing && !Progressing(c, s, t) && t.now - s.lastProgress > c.stuckTimeout)
          && (after.status == Failed ==> after.failure == Some(Stuck(c.stuckTimeout)))
          && (after.status == Navigating <==> after.status != RotatingToHeading && after.status != Failed)
          && v == if after.status == Navigating then Steer(c, t.pose, waypoints[after.index], target) else STOPPED)
    && (if !arriving && !passing && Progressing(c, s, t) then
          s'.lastPosition == Some(t.pose.At()) && s'.lastProgress == t.now
        else
          s'.lastPosition == s.lastPosition && s'.lastProgress == s.lastProgress)
  }

  lemma NavigatingKeepsInv(c: Config, s: System, t: Tick)
    requires c.Usable() && Inv(c, s.nav) && s.nav.status == Navigating
    ensures NavigatingStep(c, s, t, HandleNavigating(c, s, t).0, HandleNavigating(c, s, t).1)
  {
    hide Steer, Apart, Arrive, Inv;
    TravelKeepsInv(c, s, t);
    ArriveKeepsInv(c, s, s.nav.queue[0], t);
    ArriveOutcome(s, s.nav.queue[0], t.pose);
    WaypointAvailable(c, s.nav);
  }

  lemma ArriveOutcome(s: System, target: Target, pose: Pose)
    requires s.nav.queue != []
    ensures var (s', v) := Arrive(s, target, pose);
      && s'.lastPosition == s.lastPosition && s'.lastProgress == s.lastProgress && v == STOPPED
      && if HeadingReached(target, pose.theta) then CompletedFront(s.nav, s'.nav)
         else s'.nav == s.nav.(status := RotatingToHeading)
  {
    hide HeadingReached;
  }

  lemma ArriveKeepsInv(c: Config, s: System, target: Target, t: Tick)
    requires Inv(c, s.nav) && OnPath(s.nav)
    ensures Inv(c, Arrive(s, target, t.pose).0.nav) && Inv(c, CompleteTarget(s).0.nav)
  {
    hide HeadingReached;
  }

  /** Going on, to the next waypoint or towards this one, and giving up both keep the invariant. */
  lemma TravelKeepsInv(c: Config, s: System, t: Tick)
    requires Inv(c, s.nav) && s.nav.status == Navigating
    ensures Inv(c, AdvanceWaypoint(s.nav)) && Inv(c, SetFailed(s.nav, Stuck(c.stuckTimeout)))
    ensures s.nav.queue != []
  {
  }

  // ----- steering -----

  /** The angle the robot has to turn by to face the waypoint, or to turn its back on it. */
  function HeadingError(c: Config, pose: Pose, waypoint: Point, target: Target): real {
    var error := NormalizeAngle(c.atan2(waypoint.y - pose.y, waypoint.x - pose.x) - pose.theta);
    if target.backward then NormalizeAngle(error + PI) else error
  }

  /** Into [-limit, limit], towards zero. */
  ghost predicate Limited(v: real, wanted: real, limit: real) {
    && -limit <= v <= limit
    && (wanted >= 0.0 ==> 0.0 <= v <= wanted) && (wanted <= 0.0 ==> wanted <= v <= 0.0)
    && (-limit < v < limit ==> v == wanted)
  }

  /**
   A robot that is far off its heading turns on the spot, the shorter way round. Otherwise it drives, forwards or
   backwards as the target asks, slowing down near the waypoint, and turns in proportion to what is left of the error.
   Speed limits hold in any case.
   */
  lemma SteerOutcome(c: Config, pose: Pose, waypoint: Point, target: Target)
    requires c.Usable()
    ensures var v, error := Steer(c, pose, waypoint, target), HeadingError(c, pose, waypoint, target);
      && -c.maxLinearVel <= v.linear <= c.maxLinearVel && -c.maxAngularVel <= v.angular <= c.maxAngularVel
      && if AbsReal(error) > c.headingThreshold then
           && v.linear == 0.0
           && v.angular == (if error < 0.0 then -1.0 else 1.0) * MinReal(c.angularVel, c.maxAngularVel)
         else
           var speed := MinReal(Apart(c, pose.At(), waypoint) * 0.5, c.linearVel);
           && Limited(v.linear, if target.backward then -speed else speed, c.maxLinearVel)
           && Limited(v.angular, error * 0.5, MinReal(c.angularVel, c.maxAngularVel))
  {
    hide NormalizeAngle, Apart;
  }

  // ----- escaping -----

  /** A hazard on the way starts an escape away from the robot's heading; queue, path and count stay. */
  ghost predicate HazardStep(c: Config, s: System, t: Tick, s': System, v: Command) {
    && Inv(c, s'.nav)
    && s' == s.(nav := s'.nav) && s'.nav == s.nav.(status := Escaping, escapeStart := s'.nav.escapeStart,
                                                   escapeDirection := s'.nav.escapeDirection)
    && s'.nav.escapeStart == Some(t.now) && s'.nav.escapeDirection == t.pose.theta + PI
    && v == Command(c.escapeVelocity, 0.0, true)
  }

  /** Until the escape is over nothing changes but the robot's position; an escape that is over counts as a replan. */
  ghost predicate EscapingStep(c: Config, s: System, t: Tick, s': System, v: Command) {
    && Inv(c, s'.nav)
    && if s.nav.escapeStart.Some? && t.now - s.nav.escapeStart.value < c.escapeDuration then
         s' == s && v == Command(c.escapeVelocity, 0.0, false)
       else if s.nav.escapeStart.None? && 0.0 < c.escapeDuration then
         s' == s
       else
         && s'.nav == s.nav.(status := PlanningPath, replans := s.nav.replans + 1, needsReplan := true,
                             escapeStart := None)
         && s'.lastPosition == Some(t.pose.At()) && s'.lastProgress == t.now && v == STOPPED
  }

  lemma EscapingKeepsInv(c: Config, s: System, t: Tick)
    requires Inv(c, s.nav) && s.nav.status == Escaping
    ensures EscapingStep(c, s, t, HandleEscaping(c, s, t).0, HandleEscaping(c, s, t).1)
  {
  }

  // ----- rotating -----

  /** Rotating ends exactly when the heading is reached; until then the robot turns on the spot, the shorter way. */
  ghost predicate RotatingStep(c: Config, s: System, t: Tick, s': System, v: Command)
    requires s.nav.queue != []
  {
    var target := s.nav.queue[0];
    && Inv(c, s'.nav)
    && s'.lastPosition == s.lastPosition && s'.lastProgress == s.lastProgress
    && if HeadingReached(target, t.pose.theta) then CompletedFront(s.nav, s'.nav) && v == STOPPED
       else
         var error := NormalizeAngle(target.heading.value - t.pose.theta);
         var speed := MinReal(c.angularVel, c.maxAngularVel);
         s'.nav == s.nav && v == Command(0.0, if error < 0.0 then -speed else speed, false)
  }

  lemma RotatingKeepsInv(c: Config, s: System, t: Tick)
    requires c.Usable() && Inv(c, s.nav) && s.nav.status == RotatingToHeading
    ensures RotatingStep(c, s, t, HandleRotating(c, s, t).0, HandleRotating(c, s, t).1)
  {
    hide NormalizeAngle;
    ArriveKeepsInv(c, s, s.nav.queue[0], t);
    CompletesFront(s);
  }

  // ----- every update -----

  /** One update: a hazard interrupts navigating only; each state takes its own step; without a task nothing happens. */
  ghost predicate UpdateStep(c: Config, s: System, t: Tick, s': System, v: Command)
    requires c.Usable() && Inv(c, s.nav)
  {
    if s.nav.status == Navigating then
      if t.hazard then HazardStep(c, s, t, s', v) else NavigatingStep(c, s, t, s', v)
    else if s.nav.status == PlanningPath then PlanningStep(c, s, t, s', v)
    else if s.nav.status == Escaping then EscapingStep(c, s, t, s', v)
    else if s.nav.status == RotatingToHeading then RotatingStep(c, s, t, s', v)
    else s' == s && v == STOP
  }

  lemma UpdateKeepsInv(c: Config, s: System, t: Tick)
    requires c.Usable() && Tagged(t) && Inv(c, s.nav)
    ensures UpdateStep(c, s, t, Update(c, s, t).0, Update(c, s, t).1)
    ensures Inv(c, Update(c, s, t).0.nav)
  {
    hide Tagged, PlanningStep, NavigatingStep, EscapingStep, RotatingStep, Steer, HandlePlanning, HandleNavigating,
      HandleEscaping, HandleRotating;
    match s.nav.status {
      case PlanningPath => PlanningKeepsInv(c, s, t);
      case Navigating => NavigatingKeepsInv(c, s, t);
      case Escaping => EscapingKeepsInv(c, s, t);
      case RotatingToHeading => RotatingKeepsInv(c, s, t);
      case _ =>
    }
    StepsKeepInv(c, s, t, Update(c, s, t).0, Update(c, s, t).1);
  }

  lemma StepsKeepInv(c: Config, s: System, t: Tick, s': System, v: Command)
    requires c.Usable() && Inv(c, s.nav) && UpdateStep(c, s, t, s', v)
    ensures Inv(c, s'.nav)
  {
    hide Steer, NormalizeAngle, HeadingReached, Arriving, AtWaypoint, Progressing;
  }
}

/** Target queue and navigation state machine of the second robot program, as functions on states. */
module NavModel {
  import opened Grids
  import opened Angles

  datatype Target = Target(id: nat, position: Point, heading: Option<real>, positionTolerance: real,
                           headingTolerance: real, backward: bool)

  datatype Route = Route(waypoints: seq<Point>, targetId: nat)

  datatype Status = Idle | PlanningPath | Navigating | Escaping | RotatingToHeading | TargetReached | Failed | Cancelled

  datatype Failure = NoPathFound | PathBlocked(attempts: nat) | Stuck(seconds: real) | TargetInvalid

  datatype PlanningError =
    NoPath | StartOutOfBounds | GoalOutOfBounds | StartInObstacle | GoalInObstacle | MaxIterationsExceeded | InvalidMap

  datatype PlanResult = Planned(route: Route) | Refused(error: PlanningError)

  datatype Nav = Nav(
    queue: seq<Target>, path: Option<Route>, status: Status, index: nat, failure: Option<Failure>, completed: nat,
    replans: nat, targetsDirty: bool, pathDirty: bool, needsReplan: bool, escapeStart: Option<real>,
    escapeDirection: real)

  const EMPTY := Nav([], None, Idle, 0, None, 0, 0, false, false, false, None, 0.0)

  // ----- the target queue -----

  function PushTargets(n: Nav, targets: seq<Target>): Nav {
    var n1 := n.(queue := n.queue + targets, targetsDirty := true);
    if n.queue == [] && n1.queue != [] then n1.(needsReplan := true, status := PlanningPath) else n1
  }

  function PushTarget(n: Nav, target: Target): Nav {
    PushTargets(n, [target])
  }

  /** Drop the current target. With more to come the old path stays until the next one is planned. */
  function PopTarget(n: Nav): Nav {
    var n1 := n.(queue := if n.queue == [] then [] else n.queue[1..], targetsDirty := true,
                 completed := if n.queue == [] then n.completed else n.completed + 1);
    if n1.queue != [] then n1.(needsReplan := true, status := PlanningPath, index := 0, replans := 0)
    else n1.(path := None, pathDirty := true, status := Idle)
  }

  function ClearTargets(n: Nav): Nav {
    n.(queue := [], path := None, status := Cancelled, index := 0, needsReplan := false, replans := 0,
      targetsDirty := true, pathDirty := true)
  }

  function Reset(n: Nav): Nav {
    EMPTY.(targetsDirty := true, pathDirty := true)
  }

  // ----- path, replanning, escape -----

  function SetPath(n: Nav, route: Route): Nav {
    n.(path := Some(route), index := 0, status := Navigating, needsReplan := false, pathDirty := true)
  }

  function CurrentWaypoint(n: Nav): Option<Point> {
    if n.path.Some? && n.index < |n.path.value.waypoints| then Some(n.path.value.waypoints[n.index]) else None
  }

  predicate CanAdvance(n: Nav) {
    n.path.Some? && n.index + 1 < |n.path.value.waypoints|
  }

  function AdvanceWaypoint(n: Nav): Nav {
    if CanAdvance(n) then n.(index := n.index + 1, pathDirty := true) else n
  }

  function RequestReplan(n: Nav): Nav {
    n.(needsReplan := true, replans := n.replans + 1, status := PlanningPath)
  }

  function StartEscape(n: Nav, direction: real, now: real): Nav {
    n.(status := Escaping, escapeStart := Some(now), escapeDirection := direction)
  }

  function FinishEscape(n: Nav): Nav {
    n.(escapeStart := None, replans := n.replans + 1, needsReplan := true, status := PlanningPath)
  }

  function EscapeElapsed(n: Nav, now: real): real {
    if n.escapeStart.Some? then now - n.escapeStart.value else 0.0
  }

  function SetFailed(n: Nav, reason: Failure): Nav {
    n.(status := Failed, failure := Some(reason), pathDirty := true)
  }

  // ----- the navigator -----

  /** Thresholds and speeds; `norm` and `atan2` stand for the program's square root and arc tangent. */
  datatype Config = Config(
    waypointThreshold: real, headingThreshold: real, maxLinearVel: real, maxAngularVel: real, linearVel: real,
    angularVel: real, stuckTimeout: real, progressThreshold: real, maxReplans: nat, escapeDuration: real,
    escapeVelocity: real, norm: (real, real) -> real, atan2: (real, real) -> real)
  {
    /** Clamping to a negative limit is an error in the program. */
    predicate Usable() {
      maxLinearVel >= 0.0 && maxAngularVel >= 0.0 && angularVel >= 0.0
    }
  }

  /** What one update learns from outside; `plan` answers for the path planner on the current map. */
  datatype Tick = Tick(now: real, pose: Pose, hasMap: bool, hazard: bool, plan: Target -> PlanResult)

  /** Navigation state together with the navigator's stuck detection. */
  datatype System = System(nav: Nav, lastPosition: Option<Point>, lastProgress: real)

  datatype Command = Command(linear: real, angular: real, changed: bool)

  const STOP := Command(0.0, 0.0, false)
  const STOPPED := Command(0.0, 0.0, true)

  type Outcome = (System, Command)

  function Apart(c: Config, a: Point, b: Point): real {
    c.norm(b.x - a.x, b.y - a.y)
  }

  predicate PositionReached(c: Config, target: Target, pose: Pose) {
    Apart(c, pose.At(), target.position) < target.positionTolerance
  }

  predicate HeadingReached(target: Target, theta: real) {
    target.heading.None? || AbsReal(NormalizeAngle(target.heading.value - theta)) < target.headingTolerance
  }

  function Sign(r: real): real {
    if r < 0.0 then -1.0 else 1.0
  }

  /** Turn on the spot while the heading is off, then drive with a proportional correction. */
  function Steer(c: Config, pose: Pose, waypoint: Point, target: Target): Command
    requires c.Usable()
  {
    var distance := Apart(c, pose.At(), waypoint);
    var error := NormalizeAngle(c.atan2(waypoint.y - pose.y, waypoint.x - pose.x) - pose.theta);
    var adjusted := if target.backward then NormalizeAngle(error + PI) else error;
    if AbsReal(adjusted) > c.headingThreshold then
      Command(0.0, ClampReal(Sign(adjusted) * c.angularVel, c.maxAngularVel), false)
    else
      var linear := MinReal(distance * 0.5, c.linearVel) * (if target.backward then -1.0 else 1.0);
      var angular := ClampReal(adjusted * 0.5, c.angularVel);
      Command(ClampReal(linear, c.maxLinearVel), ClampReal(angular, c.maxAngularVel), false)
  }

  function CompleteTarget(s: System): Outcome {
    var nav := PopTarget(s.nav);
    (s.(nav := if nav.queue == [] then nav.(status := TargetReached) else nav), STOPPED)
  }

  /** At the target position: turn to the required heading first, if there is one. */
  function Arrive(s: System, target: Target, pose: Pose): Outcome {
    if !HeadingReached(target, pose.theta) then (s.(nav := s.nav.(status := RotatingToHeading)), STOPPED)
    else CompleteTarget(s)
  }

  function FailureOf(error: PlanningError): Failure {
    if error == GoalInObstacle then TargetInvalid else NoPathFound
  }

  function HandlePlanning(c: Config, s: System, t: Tick): Outcome {
    if s.nav.replans >= c.maxReplans then (s.(nav := SetFailed(s.nav, PathBlocked(s.nav.replans))), STOPPED)
    else if s.nav.queue == [] then (s.(nav := s.nav.(status := Idle)), STOPPED)
    else if !t.hasMap then (s.(nav := SetFailed(s.nav, NoPathFound)), STOPPED)
    else
      match t.plan(s.nav.queue[0])
      case Planned(route) => (System(SetPath(s.nav, route), Some(t.pose.At()), t.now), STOPPED)
      case Refused(error) => (s.(nav := SetFailed(s.nav, FailureOf(error))), STOPPED)
  }

  /** The planner is asked in this update. */
  predicate AsksPlanner(c: Config, s: System, t: Tick) {
    s.nav.status == PlanningPath && s.nav.replans < c.maxReplans && s.nav.queue != [] && t.hasMap
  }

  /** Within reach of the waypoint: go on to the next, or finish when the last one is close enough to the goal. */
  function PassWaypoint(c: Config, s: System, t: Tick, target: Target): Outcome
    requires c.Usable()
  {
    if !CanAdvance(s.nav)
       && (PositionReached(c, target, t.pose)
           || Apart(c, t.pose.At(), target.position) < c.waypointThreshold * 1.5) then
      Arrive(s, target, t.pose)
    else
      var s' := s.(nav := AdvanceWaypoint(s.nav));
      var next := CurrentWaypoint(s'.nav);
      (s', Steer(c, t.pose, if next.Some? then next.value else target.position, target))
  }

  /** On the way to a waypoint: give up when the robot has not moved for the timeout. */
  function Travel(c: Config, s: System, t: Tick, waypoint: Point, target: Target): Outcome
    requires c.Usable()
  {
    if s.lastPosition.None? || Apart(c, s.lastPosition.value, t.pose.At()) > c.progressThreshold then
      (System(s.nav, Some(t.pose.At()), t.now), Steer(c, t.pose, waypoint, target))
    else if t.now - s.lastProgress > c.stuckTimeout then (s.(nav := SetFailed(s.nav, Stuck(c.stuckTimeout))), STOPPED)
    else (s, Steer(c, t.pose, waypoint, target))
  }

  function HandleNavigating(c: Config, s: System, t: Tick): Outcome
    requires c.Usable()
  {
    if s.nav.queue == [] then (s.(nav := s.nav.(status := Idle)), STOPPED)
    else
      var target := s.nav.queue[0];
      if PositionReached(c, target, t.pose) then Arrive(s, target, t.pose)
      else
        var waypoint := CurrentWaypoint(s.nav);
        if waypoint.None? then (s.(nav := RequestReplan(s.nav)), STOPPED)
        else if Apart(c, t.pose.At(), waypoint.value) < c.waypointThreshold then PassWaypoint(c, s, t, target)
        else Travel(c, s, t, waypoint.value, target)
  }

  function HandleEscaping(c: Config, s: System, t: Tick): Outcome {
    if EscapeElapsed(s.nav, t.now) >= c.escapeDuration then
      (System(FinishEscape(s.nav), Some(t.pose.At()), t.now), STOPPED)
    else (s, Command(c.escapeVelocity, 0.0, false))
  }

  function HandleRotating(c: Config, s: System, t: Tick): Outcome
    requires c.Usable()
  {
    if s.nav.queue == [] then (s.(nav := s.nav.(status := Idle)), STOPPED)
    else if HeadingReached(s.nav.queue[0], t.pose.theta) then CompleteTarget(s)
    else
      var error := NormalizeAngle(s.nav.queue[0].heading.value - t.pose.theta);
      (s, Command(0.0, ClampReal(Sign(error) * c.angularVel, c.maxAngularVel), false))
  }

  function Update(c: Config, s: System, t: Tick): Outcome
    requires c.Usable()
  {
    if t.hazard && s.nav.status == Navigating then
      (s.(nav := StartEscape(s.nav, t.pose.theta + PI, t.now)), Command(c.escapeVelocity, 0.0, true))
    else
      match s.nav.status
      case Idle => (s, STOP)
      case TargetReached => (s, STOP)
      case Failed => (s, STOP)
      case Cancelled => (s, STOP)
      case PlanningPath => HandlePlanning(c, s, t)
      case Navigating => HandleNavigating(c, s, t)
      case Escaping => HandleEscaping(c, s, t)
      case RotatingToHeading => HandleRotating(c, s, t)
  }
}

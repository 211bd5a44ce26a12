/**
 The exploration state machine as a function from states and inputs to states and outputs.

 A `Tick` carries everything one update learns from outside: the time, the pose, what the fresh cost map says about
 the robot's surroundings, the detected frontiers, and the answers of the target and path planners.
 */
module ExplorerModel {
  import opened Grids
  import opened Angles
  import opened Planning
  import opened Smoothing
  import opened Following

  /** Frontiers are identified by their centroid. */
  type FrontierId = Coord

  datatype Frontier = Frontier(centroid: Coord, worldCentroid: Point) {
    function Id(): FrontierId { centroid }
  }

  datatype Phase = BackingUp | Rotating | Done

  datatype Status =
    | Idle
    | SelectingFrontier
    | PlanningPath
    | Navigating
    | Replanning
    | Recovering
    | EscapingToRetry
    | ReturningHome
    | Finished
    | Failed

  datatype Config = Config(
    follower: Follower, smoother: Smoother, goalTolerance: real, robotRadius: real, safetyMargin: real,
    frontierRefreshInterval: real, maxPlanningFailures: nat, returnToStart: bool, maxReplans: nat,
    frontierTimeout: real, minProgress: real, blacklistCooldown: real,
    stuckDistance: real, stuckWindow: real, recoveryBackup: real, recoveryRotation: real, maxRecoveries: nat)
  {
    /** What the components require of their parameters. */
    predicate Usable() {
      follower.maxAngularVel >= 0.0
    }
  }

  datatype Tick = Tick(
    now: real, pose: Pose, resolution: real, obstacleDistance: real, aheadBlocked: bool, detected: seq<Frontier>,
    target: Frontier -> Option<Point>, plan: Point -> Option<PlannedPath>)
  {
    predicate Sensible() {
      resolution > 0.0 && obstacleDistance >= 0.0
    }
  }

  datatype ExplorerState = ExplorerState(
    status: Status, frontiers: seq<Frontier>, currentIdx: nat, startPose: Option<Pose>, lastRefresh: real,
    planningFailures: nat, currentId: Option<FrontierId>, replans: nat, recoveries: nat, lastProgress: real,
    lastDistance: Option<real>, stuckStart: real, stuckPose: Option<Pose>, blacklist: map<FrontierId, real>,
    permanent: set<FrontierId>, exhaustion: map<FrontierId, nat>, triedEscape: bool, phase: Phase,
    recoveryStart: Option<Pose>, follower: Following.State)

  datatype Output = Output(status: Status, velocity: Velocity, target: Option<Point>, remaining: nat)

  type Outcome = (ExplorerState, Output)

  /** A step that commands no motion. */
  function Halt(s: ExplorerState, target: Option<Point>, remaining: nat): Outcome {
    (s, Output(s.status, STOP, target, remaining))
  }

  function Initial(now: real): ExplorerState {
    ExplorerState(Idle, [], 0, None, now, 0, None, 0, 0, now, None, now, None, map[], {}, map[], false, Done, None,
                  CLEARED)
  }

  /** A fresh start keeps the old frontier list, its index and the follower's path. */
  function Started(s: ExplorerState, pose: Pose, now: real): ExplorerState {
    s.(status := SelectingFrontier, startPose := Some(pose), lastRefresh := now, planningFailures := 0,
       currentId := None, replans := 0, recoveries := 0, lastProgress := now, lastDistance := None,
       stuckStart := now, stuckPose := Some(pose), blacklist := map[], permanent := {}, exhaustion := map[],
       triedEscape := false,
       phase := Done, recoveryStart := None)
  }

  function Apart(c: Config, a: Point, b: Point): real {
    SegmentLength(c.follower.norm, a, b)
  }

  // ----- blacklists -----

  /** The temporary blacklist without the entries whose cooldown is over. */
  function Unexpired(c: Config, blacklist: map<FrontierId, real>, now: real): map<FrontierId, real> {
    map id | id in blacklist && now - blacklist[id] < c.blacklistCooldown :: blacklist[id]
  }

  function Allowed(frontiers: seq<Frontier>, banned: set<FrontierId>): seq<Frontier> {
    if frontiers == [] then []
    else
      var last := frontiers[|frontiers| - 1];
      Allowed(frontiers[..|frontiers| - 1], banned) + (if last.Id() in banned then [] else [last])
  }

  function CountOf(exhaustion: map<FrontierId, nat>, id: FrontierId): nat {
    if id in exhaustion then exhaustion[id] else 0
  }

  /** One more exhaustion cycle for every listed id. */
  function Counted(exhaustion: map<FrontierId, nat>, ids: set<FrontierId>): map<FrontierId, nat> {
    map id | id in exhaustion.Keys + ids :: CountOf(exhaustion, id) + (if id in ids then 1 else 0)
  }

  /** Ids that went through three cycles or more. */
  function Spent(exhaustion: map<FrontierId, nat>, ids: set<FrontierId>): set<FrontierId> {
    set id | id in ids && CountOf(exhaustion, id) >= 3
  }

  function Blacklisted(s: ExplorerState, now: real): ExplorerState {
    if s.currentId.Some? then s.(blacklist := s.blacklist[s.currentId.value := now]) else s
  }

  // ----- selecting -----

  function Tracking(s: ExplorerState, id: FrontierId, now: real): ExplorerState {
    s.(currentId := Some(id), replans := 0, recoveries := 0, lastProgress := now, lastDistance := None,
       stuckStart := now, stuckPose := None)
  }

  /** The end of selection: the frontier list is final. */
  function Selected(c: Config, s: ExplorerState, now: real): Outcome {
    if s.frontiers == [] then
      Halt(s.(status := if c.returnToStart && s.startPose.Some? then ReturningHome else Finished), None, 0)
    else
      var s' := Tracking(s.(currentIdx := 0, planningFailures := 0), s.frontiers[0].Id(), now).(status := PlanningPath);
      Halt(s', Some(s.frontiers[0].worldCentroid), |s.frontiers|)
  }

  /** Every detected frontier is blacklisted: escape once, then ban the spent ones for good. */
  function Exhausted(c: Config, s: ExplorerState, t: Tick): Outcome {
    var ids := s.blacklist.Keys;
    var s1 := s.(exhaustion := Counted(s.exhaustion, ids), blacklist := map[]);
    var spent := Spent(s1.exhaustion, ids);
    if spent != {} && !s.triedEscape && s.startPose.Some? then
      Halt(s1.(triedEscape := true, status := EscapingToRetry, follower := CLEARED), None, |s.blacklist|)
    else
      var permanent := s.permanent + spent;
      Selected(c, s1.(permanent := permanent, frontiers := Allowed(t.detected, permanent)), t.now)
  }

  function SelectFrontier(c: Config, s: ExplorerState, t: Tick): Outcome {
    var s1 := s.(blacklist := Unexpired(c, s.blacklist, t.now), lastRefresh := t.now);
    var available := Allowed(t.detected, s1.blacklist.Keys + s1.permanent);
    if available == [] && |s1.blacklist| > 0 then Exhausted(c, s1, t)
    else Selected(c, s1.(frontiers := available), t.now)
  }

  // ----- planning -----

  /** Try frontiers from the current one on until one gets a path or a planning failure is counted. */
  function PlanPath(c: Config, s: ExplorerState, t: Tick): Outcome
    requires c.Usable()
    decreases |s.frontiers| - s.currentIdx
  {
    if s.currentIdx >= |s.frontiers| then Halt(s.(status := Failed), None, 0)
    else
      match t.target(s.frontiers[s.currentIdx])
      case None => PlanPath(c, s.(currentIdx := s.currentIdx + 1), t)
      case Some(target) =>
        match t.plan(target)
        case None =>
          var s1 := s.(planningFailures := s.planningFailures + 1);
          var s2 := if s1.planningFailures < c.maxPlanningFailures then s1
                    else s1.(currentIdx := s1.currentIdx + 1, planningFailures := 0);
          Halt(s2, None, |s2.frontiers| - s2.currentIdx)
        case Some(path) =>
          var smoothed := Smoothed(c.smoother, path);
          if |path.waypoints| < 2 || smoothed.segments == [] then PlanPath(c, s.(currentIdx := s.currentIdx + 1), t)
          else
            var s' := s.(follower := WithPath(smoothed), planningFailures := 0, status := Navigating);
            Halt(s', Some(target), |s.frontiers| - s.currentIdx)
  }

  function Replan(c: Config, s: ExplorerState, t: Tick): Outcome
    requires c.Usable()
  {
    PlanPath(c, s.(follower := CLEARED, status := PlanningPath), t)
  }

  // ----- navigating -----

  /** Has the robot moved less than the threshold over a whole window? The window restarts when it is over. */
  function CheckStuck(c: Config, s: ExplorerState, t: Tick): (ExplorerState, bool) {
    if s.stuckPose.None? then (s.(stuckPose := Some(t.pose), stuckStart := t.now), false)
    else if t.now - s.stuckStart < c.stuckWindow then (s, false)
    else (s.(stuckPose := Some(t.pose), stuckStart := t.now),
          Apart(c, s.stuckPose.value.At(), t.pose.At()) < c.stuckDistance)
  }

  /** False when the timeout is over; the reference distance moves with every other call. */
  function CheckProgress(c: Config, s: ExplorerState, t: Tick, goal: Point): (ExplorerState, bool) {
    var distance := Apart(c, t.pose.At(), goal);
    if s.lastDistance.None? || s.lastDistance.value - distance > c.minProgress then
      (s.(lastDistance := Some(distance), lastProgress := t.now), true)
    else if t.now - s.lastProgress >= c.frontierTimeout then (s, false)
    else (s.(lastDistance := Some(distance)), true)
  }

  function Recover(s: ExplorerState, target: Option<Point>): Outcome {
    Halt(s.(status := Recovering, phase := BackingUp, recoveryStart := None, follower := CLEARED), target,
         |s.frontiers|)
  }

  /** An obstacle right ahead: replan, or recover when the replans are used up. */
  function ObstacleAhead(c: Config, s: ExplorerState): Outcome {
    var s1 := s.(replans := s.replans + 1);
    if s1.replans >= c.maxReplans then Recover(s1, None)
    else Halt(s1.(status := Replanning, follower := CLEARED), None, |s1.frontiers|)
  }

  /** Slow down within twice the safe distance of an obstacle. */
  function Scaled(c: Config, t: Tick, v: Velocity): Velocity
    requires t.Sensible()
  {
    var safe := (c.robotRadius + c.safetyMargin) / t.resolution;
    if t.obstacleDistance < safe * 2.0 then
      v.(linear := v.linear * MaxReal(0.3, MinReal(1.0, t.obstacleDistance / safe / 2.0)))
    else v
  }

  /** Look for frontiers again while driving. */
  function Refreshed(c: Config, s: ExplorerState, t: Tick): ExplorerState {
    var s1 := s.(lastRefresh := t.now);
    if t.detected == [] then
      if c.returnToStart && s.startPose.Some? then s1.(status := ReturningHome, follower := CLEARED)
      else s1.(status := Finished)
    else if s.frontiers == [] then s1.(frontiers := t.detected)
    else s1
  }

  /** The safety checks and the control step, once stuck and progress checks have passed. */
  function Drive(c: Config, s: ExplorerState, t: Tick, goal: Option<Point>, refresh: bool): Outcome
    requires c.Usable() && t.Sensible() && s.follower.Valid()
  {
    if t.obstacleDistance < c.robotRadius / t.resolution then Halt(s.(status := Replanning), None, |s.frontiers|)
    else
      var (follower, v) := Steered(c.follower, s.follower, t.pose);
      var s1 := s.(follower := follower);
      if v.linear > 0.01 && t.aheadBlocked then ObstacleAhead(c, s1)
      else
        var s2 := if refresh then Refreshed(c, s1, t) else s1;
        (s2, Output(s2.status, Scaled(c, t, v), goal, |s2.frontiers|))
  }

  function Navigate(c: Config, s: ExplorerState, t: Tick, refresh: bool): Outcome
    requires c.Usable() && t.Sensible() && s.follower.Valid()
  {
    if s.follower.state == Complete then Halt(s.(status := SelectingFrontier), None, |s.frontiers|)
    else
      var goal := s.follower.Goal();
      var (s1, stuck) := CheckStuck(c, s, t);
      if stuck then Recover(s1, goal)
      else
        var (s2, progress) := if goal.Some? then CheckProgress(c, s1, t, goal.value) else (s1, true);
        if !progress then
          Halt(Blacklisted(s2, t.now).(status := SelectingFrontier, follower := CLEARED), None, |s2.frontiers|)
        else Drive(c, s2, t, goal, refresh)
  }

  // ----- going home, escaping, recovering -----

  function ReturnHome(c: Config, s: ExplorerState, t: Tick): Outcome
    requires c.Usable() && s.follower.Valid()
  {
    if s.startPose.None? then Halt(s.(status := Finished), None, 0)
    else
      var start := s.startPose.value.At();
      if Apart(c, t.pose.At(), start) < c.goalTolerance then Halt(s.(status := Finished), None, 0)
      else if s.follower.path.Some? then
        if s.follower.state == Complete then Halt(s.(status := Finished), None, 0)
        else
          var (follower, v) := Steered(c.follower, s.follower, t.pose);
          (s.(follower := follower), Output(s.status, v, Some(start), 0))
      else
        var s' := match t.plan(start)
          case Some(path) => s.(follower := WithPath(Smoothed(c.smoother, path)))
          case None => s.(status := Failed);
        Halt(s', Some(start), 0)
  }

  /** Back to selecting with the counts and the temporary blacklist wiped. */
  function Retry(s: ExplorerState): ExplorerState {
    s.(exhaustion := map[], blacklist := map[], status := SelectingFrontier)
  }

  function EscapeToRetry(c: Config, s: ExplorerState, t: Tick): Outcome
    requires c.Usable() && s.follower.Valid()
  {
    if s.startPose.None? then Halt(s.(status := SelectingFrontier), None, |s.frontiers|)
    else
      var start := s.startPose.value.At();
      if Apart(c, t.pose.At(), start) < 0.5 then Halt(Retry(s), None, 0)
      else if s.follower.path.Some? && s.follower.state != Complete then
        var (follower, v) := Steered(c.follower, s.follower, t.pose);
        (s.(follower := follower), Output(s.status, v, Some(start), |s.frontiers|))
      else
        var s1 := if s.follower.path.Some? then s.(follower := CLEARED) else s;
        var s' := match t.plan(start)
          case Some(path) => s1.(follower := WithPath(Smoothed(c.smoother, path)))
          case None => Retry(s1);
        Halt(s', Some(start), |s.frontiers|)
  }

  function BackUp(c: Config, s: ExplorerState, t: Tick): Outcome {
    var start := if s.recoveryStart.Some? then s.recoveryStart.value else t.pose;
    if Apart(c, start.At(), t.pose.At()) >= c.recoveryBackup then
      Halt(s.(phase := Rotating, recoveryStart := Some(t.pose)), None, |s.frontiers|)
    else
      (s.(recoveryStart := Some(start)), Output(s.status, Velocity(-0.1, 0.0), None, |s.frontiers|))
  }

  function Rotate(c: Config, s: ExplorerState, t: Tick, start: Pose): Outcome {
    if AbsReal(NormalizeAngle(t.pose.theta - start.theta)) >= c.recoveryRotation then
      var s1 := s.(phase := Done, recoveryStart := None, recoveries := s.recoveries + 1);
      var s2 := if s1.recoveries >= c.maxRecoveries then Blacklisted(s1, t.now).(status := SelectingFrontier)
                else s1.(status := Replanning);
      Halt(s2, None, |s2.frontiers|)
    else
      (s, Output(s.status, Velocity(0.0, 0.4), None, |s.frontiers|))
  }

  /** Rotating needs the pose in which it began. */
  predicate Recoverable(s: ExplorerState) {
    s.phase == Rotating ==> s.recoveryStart.Some?
  }

  function ExecuteRecovery(c: Config, s: ExplorerState, t: Tick): Outcome
    requires Recoverable(s)
  {
    match s.phase
    case BackingUp => BackUp(c, s, t)
    case Rotating => Rotate(c, s, t, s.recoveryStart.value)
    case Done => Halt(s.(status := Replanning), None, |s.frontiers|)
  }

  // ----- one update -----

  predicate Ready(c: Config, s: ExplorerState, t: Tick) {
    c.Usable() && t.Sensible() && s.follower.Valid() && (s.status == Recovering ==> Recoverable(s))
  }

  function Update(c: Config, s: ExplorerState, t: Tick): Outcome
    requires Ready(c, s, t)
  {
    match s.status
    case Idle => Halt(s, None, 0)
    case SelectingFrontier => SelectFrontier(c, s, t)
    case PlanningPath => PlanPath(c, s, t)
    case Navigating => Navigate(c, s, t, t.now - s.lastRefresh > c.frontierRefreshInterval)
    case Replanning => Replan(c, s, t)
    case ReturningHome => ReturnHome(c, s, t)
    case Recovering => ExecuteRecovery(c, s, t)
    case EscapingToRetry => EscapeToRetry(c, s, t)
    case Finished => Halt(s, None, 0)
    case Failed => Halt(s, None, 0)
  }
}

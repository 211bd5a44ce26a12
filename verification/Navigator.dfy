/** The navigation state object and the navigator that drives it; every update does what the state machine says. */
module Navigation {
  import opened Grids
  import opened Angles
  import opened NavModel
  import opened NavSteps

  class NavigationState {
    var targetStack: seq<Target>
    var currentPath: Option<Route>
    var navState: Status
    var currentWaypointIndex: nat
    var failureReason: Option<Failure>
    var targetsCompleted: nat
    var replanAttempts: nat
    var targetsDirty: bool
    var pathDirty: bool
    var needsReplan: bool
    var escapeStartTime: Option<real>
    var escapeDirection: real

    function View(): Nav
      reads this
    {
      Nav(targetStack, currentPath, navState, currentWaypointIndex, failureReason, targetsCompleted, replanAttempts,
          targetsDirty, pathDirty, needsReplan, escapeStartTime, escapeDirection)
    }

    constructor ()
      ensures View() == EMPTY
    {
      targetStack, currentPath, navState, currentWaypointIndex := [], None, Idle, 0;
      failureReason, targetsCompleted, replanAttempts := None, 0, 0;
      targetsDirty, pathDirty, needsReplan := false, false, false;
      escapeStartTime, escapeDirection := None, 0.0;
    }

    method PushTarget(target: Target)
      modifies this
      ensures View() == NavModel.PushTarget(old(View()), target)
    {
      var wasEmpty := targetStack == [];
      targetStack := targetStack + [target];
      targetsDirty := true;
      if wasEmpty {
        needsReplan := true;
        navState := PlanningPath;
      }
    }

    method PushTargets(targets: seq<Target>)
      modifies this
      ensures View() == NavModel.PushTargets(old(View()), targets)
    {
      var wasEmpty := targetStack == [];
      ghost var before := targetStack;
      for i := 0 to |targets|
        modifies this`targetStack
        invariant targetStack == before + targets[..i]
      {
        targetStack := targetStack + [targets[i]];
      }
      assert targets[..|targets|] == targets;
      targetsDirty := true;
      if wasEmpty && targetStack != [] {
        needsReplan := true;
        navState := PlanningPath;
      }
    }

    method PopTarget() returns (target: Option<Target>)
      modifies this
      ensures View() == NavModel.PopTarget(old(View()))
      ensures target == if old(targetStack) == [] then None else Some(old(targetStack)[0])
      ensures replanAttempts == if targetStack != [] then 0 else old(replanAttempts)
    {
      target := None;
      if targetStack != [] {
        target := Some(targetStack[0]);
        targetStack := targetStack[1..];
      }
      targetsDirty := true;
      if target.Some? {
        targetsCompleted := targetsCompleted + 1;
      }
      if targetStack != [] {
        needsReplan := true;
        navState := PlanningPath;
        currentWaypointIndex := 0;
        replanAttempts := 0;
      } else {
        currentPath := None;
        pathDirty := true;
        navState := Idle;
      }
    }

    method ClearTargets()
      modifies this
      ensures View() == NavModel.ClearTargets(old(View()))
    {
      targetStack := [];
      currentPath := None;
      navState := Cancelled;
      currentWaypointIndex := 0;
      needsReplan := false;
      replanAttempts := 0;
      targetsDirty := true;
      pathDirty := true;
    }

    method Reset()
      modifies this
      ensures View() == NavModel.Reset(old(View()))
    {
      targetStack, currentPath, navState, currentWaypointIndex := [], None, Idle, 0;
      failureReason, targetsCompleted, replanAttempts, needsReplan := None, 0, 0, false;
      escapeStartTime, escapeDirection := None, 0.0;
      targetsDirty, pathDirty := true, true;
    }

    method SetPath(route: Route)
      modifies this
      ensures View() == NavModel.SetPath(old(View()), route)
    {
      currentPath := Some(route);
      currentWaypointIndex := 0;
      navState := Navigating;
      needsReplan := false;
      pathDirty := true;
    }

    /** Move to the next waypoint; false at the end of the path. */
    method AdvanceWaypoint() returns (more: bool)
      modifies this
      ensures View() == NavModel.AdvanceWaypoint(old(View()))
      ensures more <==> currentPath.Some? && old(currentWaypointIndex) + 1 < |currentPath.value.waypoints|
      ensures currentWaypointIndex == old(currentWaypointIndex) + (if more then 1 else 0)
      ensures currentPath == old(currentPath) && navState == old(navState)
    {
      if currentPath.Some? && currentWaypointIndex + 1 < |currentPath.value.waypoints| {
        currentWaypointIndex := currentWaypointIndex + 1;
        pathDirty := true;
        return true;
      }
      return false;
    }

    method RequestReplan()
      modifies this
      ensures View() == NavModel.RequestReplan(old(View()))
    {
      needsReplan := true;
      replanAttempts := replanAttempts + 1;
      navState := PlanningPath;
    }

    method StartEscape(direction: real, now: real)
      modifies this
      ensures View() == NavModel.StartEscape(old(View()), direction, now)
    {
      navState := Escaping;
      escapeStartTime := Some(now);
      escapeDirection := direction;
    }

    method FinishEscapeAndReplan()
      modifies this
      ensures View() == FinishEscape(old(View()))
    {
      escapeStartTime := None;
      replanAttempts := replanAttempts + 1;
      needsReplan := true;
      navState := PlanningPath;
    }

    method SetFailed(reason: Failure)
      modifies this
      ensures View() == NavModel.SetFailed(old(View()), reason)
    {
      navState := Failed;
      failureReason := Some(reason);
      pathDirty := true;
    }
  }

  class Navigator {
    const config: Config
    var lastPosition: Option<Point>
    var lastProgressTime: real

    constructor (config: Config, now: real)
      ensures this.config == config && lastPosition == None && lastProgressTime == now
    {
      this.config := config;
      lastPosition, lastProgressTime := None, now;
    }

    function View(nav: NavigationState): System
      reads this, nav
    {
      System(nav.View(), lastPosition, lastProgressTime)
    }

    method Update(nav: NavigationState, t: Tick) returns (command: Command)
      requires config.Usable()
      modifies this, nav
      ensures (View(nav), command) == NavModel.Update(config, old(View(nav)), t)
      ensures Tagged(t) && old(Inv(config, nav.View())) ==>
        Inv(config, nav.View()) && UpdateStep(config, old(View(nav)), t, View(nav), command)
    {
      hide Inv, UpdateStep, Tagged, NavModel.HandlePlanning, NavModel.HandleNavigating, NavModel.HandleEscaping,
        NavModel.HandleRotating;
      if Tagged(t) && Inv(config, nav.View()) {
        UpdateKeepsInv(config, View(nav), t);
      }
      if t.hazard && nav.navState == Navigating {
        nav.StartEscape(t.pose.theta + PI, t.now);
        return Command(config.escapeVelocity, 0.0, true);
      }
      match nav.navState {
        case Idle => command := STOP;
        case TargetReached => command := STOP;
        case Failed => command := STOP;
        case Cancelled => command := STOP;
        case PlanningPath => command := HandlePlanning(nav, t);
        case Navigating => command := HandleNavigating(nav, t);
        case Escaping => command := HandleEscaping(nav, t);
        case RotatingToHeading => command := HandleRotating(nav, t);
      }
    }

    method HandlePlanning(nav: NavigationState, t: Tick) returns (command: Command)
      modifies this, nav
      ensures (View(nav), command) == NavModel.HandlePlanning(config, old(View(nav)), t)
      ensures Tagged(t) && old(Inv(config, nav.View())) && old(nav.navState) == PlanningPath ==>
        PlanningStep(config, old(View(nav)), t, View(nav), command)
    {
      hide Inv, Tagged, PlanningStep;
      if Tagged(t) && Inv(config, nav.View()) && nav.navState == PlanningPath {
        PlanningKeepsInv(config, View(nav), t);
      }
      if nav.replanAttempts >= config.maxReplans {
        nav.SetFailed(PathBlocked(nav.replanAttempts));
        return STOPPED;
      }
      if nav.targetStack == [] {
        nav.navState := Idle;
        return STOPPED;
      }
      if !t.hasMap {
        nav.SetFailed(NoPathFound);
        return STOPPED;
      }
      var result := t.plan(nav.targetStack[0]);
      match result {
        case Planned(route) =>
          nav.SetPath(route);
          lastPosition := Some(t.pose.At());
          lastProgressTime := t.now;
        case Refused(error) =>
          nav.SetFailed(FailureOf(error));
      }
      return STOPPED;
    }

    method CompleteTarget(nav: NavigationState) returns (command: Command)
      modifies nav
      ensures (View(nav), command) == NavModel.CompleteTarget(old(View(nav)))
      ensures old(nav.targetStack) != [] ==> CompletedFront(old(nav.View()), nav.View())
    {
      var completed := nav.PopTarget();
      if nav.targetStack == [] {
        nav.navState := TargetReached;
      }
      return STOPPED;
    }

    method Arrive(nav: NavigationState, target: Target, pose: Pose) returns (command: Command)
      modifies nav
      ensures (View(nav), command) == NavModel.Arrive(old(View(nav)), target, pose)
    {
      hide HeadingReached, NavModel.CompleteTarget;
      if target.heading.Some? && !HeadingReached(target, pose.theta) {
        nav.navState := RotatingToHeading;
        return STOPPED;
      }
      NoHeadingIsReached(target, pose.theta);
      command := CompleteTarget(nav);
    }

    method HandleNavigating(nav: NavigationState, t: Tick) returns (command: Command)
      requires config.Usable()
      modifies this, nav
      ensures (View(nav), command) == NavModel.HandleNavigating(config, old(View(nav)), t)
      ensures old(Inv(config, nav.View())) && old(nav.navState) == Navigating ==>
        NavigatingStep(config, old(View(nav)), t, View(nav), command)
    {
      hide PositionReached, Apart, NavModel.Arrive, NavModel.PassWaypoint, NavModel.Travel, Inv, NavigatingStep;
      if Inv(config, nav.View()) && nav.navState == Navigating {
        NavigatingKeepsInv(config, View(nav), t);
      }
      if nav.targetStack == [] {
        nav.navState := Idle;
        return STOPPED;
      }
      var target := nav.targetStack[0];
      if PositionReached(config, target, t.pose) {
        command := Arrive(nav, target, t.pose);
        return;
      }
      var waypoint := CurrentWaypoint(nav.View());
      if waypoint.None? {
        nav.RequestReplan();
        return STOPPED;
      }
      if Apart(config, t.pose.At(), waypoint.value) < config.waypointThreshold {
        command := PassWaypoint(nav, t, target);
      } else {
        command := Travel(nav, t, waypoint.value, target);
      }
    }

    method PassWaypoint(nav: NavigationState, t: Tick, target: Target) returns (command: Command)
      requires config.Usable()
      modifies nav
      ensures (View(nav), command) == NavModel.PassWaypoint(config, old(View(nav)), t, target)
    {
      hide Apart, PositionReached, NavModel.Arrive, Steer;
      var more := nav.AdvanceWaypoint();
      if !more {
        if PositionReached(config, target, t.pose) {
          command := Arrive(nav, target, t.pose);
          return;
        }
        var goalDist := Apart(config, t.pose.At(), target.position);
        if goalDist < config.waypointThreshold * 1.5 {
          command := Arrive(nav, target, t.pose);
          return;
        }
      }
      var next := CurrentWaypoint(nav.View());
      return Steer(config, t.pose, if next.Some? then next.value else target.position, target);
    }

    method Travel(nav: NavigationState, t: Tick, waypoint: Point, target: Target) returns (command: Command)
      requires config.Usable()
      modifies this, nav
      ensures (View(nav), command) == NavModel.Travel(config, old(View(nav)), t, waypoint, target)
    {
      hide Apart, Steer;
      if lastPosition.Some? {
        var moved := Apart(config, lastPosition.value, t.pose.At());
        if moved > config.progressThreshold {
          lastPosition := Some(t.pose.At());
          lastProgressTime := t.now;
        } else if t.now - lastProgressTime > config.stuckTimeout {
          nav.SetFailed(Stuck(config.stuckTimeout));
          return STOPPED;
        }
      } else {
        lastPosition := Some(t.pose.At());
        lastProgressTime := t.now;
      }
      return Steer(config, t.pose, waypoint, target);
    }

    method HandleEscaping(nav: NavigationState, t: Tick) returns (command: Command)
      modifies this, nav
      ensures (View(nav), command) == NavModel.HandleEscaping(config, old(View(nav)), t)
      ensures old(Inv(config, nav.View())) && old(nav.navState) == Escaping ==>
        EscapingStep(config, old(View(nav)), t, View(nav), command)
    {
      hide Inv, EscapingStep;
      if Inv(config, nav.View()) && nav.navState == Escaping {
        EscapingKeepsInv(config, View(nav), t);
      }
      var elapsed := EscapeElapsed(nav.View(), t.now);
      if elapsed >= config.escapeDuration {
        nav.FinishEscapeAndReplan();
        lastPosition := Some(t.pose.At());
        lastProgressTime := t.now;
        return STOPPED;
      }
      return Command(config.escapeVelocity, 0.0, false);
    }

    method HandleRotating(nav: NavigationState, t: Tick) returns (command: Command)
      requires config.Usable()
      modifies this, nav
      ensures (View(nav), command) == NavModel.HandleRotating(config, old(View(nav)), t)
      ensures old(Inv(config, nav.View())) && old(nav.navState) == RotatingToHeading ==>
        RotatingStep(config, old(View(nav)), t, View(nav), command)
    {
      hide NavModel.CompleteTarget, NormalizeAngle, Inv, RotatingStep;
      if Inv(config, nav.View()) && nav.navState == RotatingToHeading {
        RotatingKeepsInv(config, View(nav), t);
      }
      if nav.targetStack == [] {
        nav.navState := Idle;
        return STOPPED;
      }
      var target := nav.targetStack[0];
      if target.heading.None? {
        command := CompleteTarget(nav);
        return;
      }
      if HeadingReached(target, t.pose.theta) {
        command := CompleteTarget(nav);
        return;
      }
      var angleError := NormalizeAngle(target.heading.value - t.pose.theta);
      return Command(0.0, ClampReal(Sign(angleError) * config.angularVel, config.maxAngularVel), false);
    }
  }

  lemma NoHeadingIsReached(target: Target, theta: real)
    ensures target.heading.None? ==> HeadingReached(target, theta)
  {
  }
}

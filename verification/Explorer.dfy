/** The explorer object, method by method; every update does exactly what the state machine says. */
module Exploration {
  import opened Grids
  import opened Angles
  import opened Planning
  import opened Smoothing
  import opened Following
  import opened ExplorerModel
  import opened ExplorerSafety
  import opened ExplorerSteps

  /** Per-frontier tracking. */
  datatype Tracker = Tracker(currentId: Option<FrontierId>, replans: nat, recoveries: nat)

  /** Progress tracking. */
  datatype Progress = Progress(lastTime: real, lastDistance: Option<real>)

  /** Stuck detection. */
  datatype StuckCheck = StuckCheck(start: real, pose: Option<Pose>)

  /** Frontier blacklists. */
  datatype Blacklists = Blacklists(temporary: map<FrontierId, real>, permanent: set<FrontierId>,
                                   exhaustion: map<FrontierId, nat>, triedEscape: bool)

  /** Recovery state. */
  datatype RecoveryState = RecoveryState(phase: Phase, startPose: Option<Pose>)

  /** The explorer's fields, with each of its groups of trackers in one record. */
  class Explorer {
    const config: Config
    const follower: PathFollower
    var status: Status
    var frontiers: seq<Frontier>
    var currentFrontierIdx: nat
    var startPose: Option<Pose>
    var lastFrontierRefresh: real
    var planningFailures: nat
    var tracker: Tracker
    var progress: Progress
    var stuckCheck: StuckCheck
    var lists: Blacklists
    var recovery: RecoveryState

    function View(): ExplorerState
      reads this, follower
    {
      ExplorerState(status, frontiers, currentFrontierIdx, startPose, lastFrontierRefresh, planningFailures,
                    tracker.currentId, tracker.replans, tracker.recoveries, progress.lastTime, progress.lastDistance,
                    stuckCheck.start, stuckCheck.pose, lists.temporary, lists.permanent, lists.exhaustion,
                    lists.triedEscape,
                    recovery.phase, recovery.startPose, follower.View())
    }

    ghost predicate Valid()
      reads this, follower
    {
      config.Usable() && follower.config == config.follower && follower.Valid()
    }

    constructor (config: Config, now: real)
      requires config.Usable()
      ensures this.config == config && Valid() && fresh(follower) && View() == Initial(now) && Inv(config, View())
    {
      this.config := config;
      follower := new PathFollower(config.follower);
      status, frontiers, currentFrontierIdx, startPose := Idle, [], 0, None;
      lastFrontierRefresh, planningFailures := now, 0;
      tracker, progress, stuckCheck := Tracker(None, 0, 0), Progress(now, None), StuckCheck(now, None);
      lists, recovery := Blacklists(map[], {}, map[], false), RecoveryState(Done, None);
      new;
      InitialInv(config, now);
    }

    method Start(currentPose: Pose, now: real)
      requires Valid()
      modifies this
      ensures Valid() && View() == Started(old(View()), currentPose, now)
      ensures status == SelectingFrontier && startPose == Some(currentPose) && planningFailures == 0
      ensures tracker == Tracker(None, 0, 0) && lists == Blacklists(map[], {}, map[], false)
      ensures frontiers == old(frontiers) && currentFrontierIdx == old(currentFrontierIdx)
      ensures follower.View() == old(follower.View())
      ensures old(Inv(config, View())) ==> Inv(config, View())
    {
      hide Inv;
      if Inv(config, View()) {
        StartedInv(config, View(), currentPose, now);
      }
      startPose := Some(currentPose);
      status := SelectingFrontier;
      lastFrontierRefresh := now;
      planningFailures := 0;
      ResetForStart(currentPose, now);
    }

    /** Trackers, blacklists and recovery state of a new run. */
    method ResetForStart(currentPose: Pose, now: real)
      modifies this`tracker, this`progress, this`stuckCheck, this`lists, this`recovery
      ensures tracker == Tracker(None, 0, 0) && progress == Progress(now, None)
        && stuckCheck == StuckCheck(now, Some(currentPose))
      ensures lists == Blacklists(map[], {}, map[], false) && recovery == RecoveryState(Done, None)
    {
      tracker := Tracker(None, 0, 0);
      progress := Progress(now, None);
      stuckCheck := StuckCheck(now, Some(currentPose));
      lists := Blacklists(map[], {}, map[], false);
      recovery := RecoveryState(Done, None);
    }

    /** The report of a step that commands no motion. */
    function Report(target: Option<Point>, remaining: nat): Output
      reads this
    {
      Output(status, STOP, target, remaining)
    }

    method Update(t: Tick) returns (out: Output)
      requires Valid() && Ready(config, View(), t)
      modifies this, follower
      ensures Valid() && (View(), out) == old(ExplorerModel.Update(config, View(), t))
      ensures old(Inv(config, View())) ==>
        Inv(config, View()) && UpdateOutcome(config, old(View()), t, View(), out)
    {
      hide Inv, UpdateOutcome, ExplorerModel.SelectFrontier, ExplorerModel.PlanPath, ExplorerModel.Navigate,
        ExplorerModel.Replan, ExplorerModel.ReturnHome,
        ExplorerModel.ExecuteRecovery, ExplorerModel.EscapeToRetry;
      if Inv(config, View()) {
        UpdateKeepsInv(config, View(), t);
        UpdateCauses(config, View(), t);
      }
      var shouldRefresh := t.now - lastFrontierRefresh > config.frontierRefreshInterval;
      match status {
        case Idle => out := Report(None, 0);
        case SelectingFrontier => out := SelectFrontier(t);
        case PlanningPath => out := PlanPath(t);
        case Navigating => out := Navigate(t, shouldRefresh);
        case Replanning => out := Replan(t);
        case ReturningHome => out := ReturnHome(t);
        case Recovering => out := ExecuteRecovery(t);
        case EscapingToRetry => out := EscapeToRetry(t);
        case Finished => out := Report(None, 0);
        case Failed => out := Report(None, 0);
      }
    }

    // ----- blacklists -----

    method CleanBlacklist(now: real)
      modifies this`lists
      ensures lists == old(lists).(temporary := Unexpired(config, old(lists.temporary), now))
    {
      lists := lists.(temporary := Unexpired(config, lists.temporary, now));
    }

    predicate IsBlacklisted(id: FrontierId, now: real)
      reads this
    {
      id in lists.temporary && !(now - lists.temporary[id] >= config.blacklistCooldown)
    }

    method BlacklistCurrent(now: real)
      modifies this`lists
      ensures lists == if tracker.currentId.None? then old(lists)
                       else old(lists).(temporary := old(lists.temporary)[tracker.currentId.value := now])
    {
      if tracker.currentId.Some? {
        lists := lists.(temporary := lists.temporary[tracker.currentId.value := now]);
      }
    }

    method ResetFrontierTracking(id: FrontierId, now: real)
      modifies this`tracker, this`progress, this`stuckCheck
      ensures tracker == Tracker(Some(id), 0, 0) && progress == Progress(now, None)
        && stuckCheck == StuckCheck(now, None)
    {
      tracker := Tracker(Some(id), 0, 0);
      progress := Progress(now, None);
      stuckCheck := StuckCheck(now, None);
    }

    /** Detected frontiers that are on neither blacklist; the temporary one holds no expired entries any more. */
    method FilterAvailable(detected: seq<Frontier>, now: real) returns (available: seq<Frontier>)
      requires forall id :: id in lists.temporary ==> now - lists.temporary[id] < config.blacklistCooldown
      ensures available == Allowed(detected, lists.temporary.Keys + lists.permanent)
    {
      available := [];
      for i := 0 to |detected|
        invariant available == Allowed(detected[..i], lists.temporary.Keys + lists.permanent)
      {
        assert detected[..i + 1][..i] == detected[..i];
        if !IsBlacklisted(detected[i].Id(), now) && detected[i].Id() !in lists.permanent {
          available := available + [detected[i]];
        }
      }
      assert detected[..|detected|] == detected;
    }

    /** One more exhaustion cycle for every blacklisted id; the ids may be visited in any order. */
    method CountExhaustion(ids: set<FrontierId>) returns (anyExhausted: bool)
      modifies this`lists
      ensures lists == old(lists).(exhaustion := Counted(old(lists.exhaustion), ids))
      ensures anyExhausted <==> Spent(lists.exhaustion, ids) != {}
    {
      hide Counted, Spent, CountOf;
      var todo := ids;
      anyExhausted := false;
      CountNone(lists.exhaustion);
      assert ids - todo == {};
      while todo != {}
        invariant todo <= ids
        invariant lists == old(lists).(exhaustion := Counted(old(lists.exhaustion), ids - todo))
        invariant anyExhausted <==> Spent(lists.exhaustion, ids - todo) != {}
        decreases todo
      {
        var id :| id in todo;
        var count := CountOf(lists.exhaustion, id) + 1;
        CountOne(old(lists.exhaustion), ids - todo, id, count);
        lists := lists.(exhaustion := lists.exhaustion[id := count]);
        if count >= 3 {
          anyExhausted := true;
        }
        assert ids - (todo - {id}) == (ids - todo) + {id};
        todo := todo - {id};
      }
      assert ids - todo == ids;
    }

    /** Ban the ids that went through three cycles. */
    method BanExhausted(ids: set<FrontierId>)
      modifies this`lists
      ensures lists == old(lists).(permanent := old(lists.permanent) + Spent(old(lists.exhaustion), ids))
    {
      var todo := ids;
      while todo != {}
        invariant todo <= ids
        invariant lists == old(lists).(permanent := old(lists.permanent) + Spent(old(lists.exhaustion), ids - todo))
        decreases todo
      {
        var id :| id in todo;
        if CountOf(lists.exhaustion, id) >= 3 {
          lists := lists.(permanent := lists.permanent + {id});
        }
        todo := todo - {id};
      }
      assert ids - todo == ids;
    }

    // ----- selecting -----

    method SelectFrontier(t: Tick) returns (out: Output)
      requires Valid()
      modifies this, follower
      ensures Valid() && (View(), out) == ExplorerModel.SelectFrontier(config, old(View()), t)
      ensures old(Inv(config, View())) && old(status) == SelectingFrontier ==>
        SelectStep(config, old(View()), t, View(), out)
    {
      hide Allowed, Exhausted, Selected, Inv, SelectStep;
      if Inv(config, View()) && status == SelectingFrontier {
        SelectCauses(config, View(), t);
      }
      CleanBlacklist(t.now);
      lastFrontierRefresh := t.now;
      var available := FilterAvailable(t.detected, t.now);
      if available == [] && |lists.temporary| > 0 {
        out := HandleExhaustion(t);
      } else {
        frontiers := available;
        out := FinishSelection(t.now);
      }
    }

    method HandleExhaustion(t: Tick) returns (out: Output)
      requires Valid()
      modifies this, follower
      ensures Valid() && (View(), out) == Exhausted(config, old(View()), t)
    {
      hide Counted, Spent, Allowed, Selected;
      var blacklistedCount := |lists.temporary|;
      var ids := lists.temporary.Keys;
      var anyExhausted := CountExhaustion(ids);
      if anyExhausted && !lists.triedEscape && startPose.Some? {
        lists := lists.(triedEscape := true, temporary := map[]);
        status := EscapingToRetry;
        follower.ClearPath();
        return Report(None, blacklistedCount);
      }
      BanExhausted(ids);
      lists := lists.(temporary := map[]);
      frontiers := Allowed(t.detected, lists.permanent);
      out := FinishSelection(t.now);
    }

    method FinishSelection(now: real) returns (out: Output)
      requires Valid()
      modifies this
      ensures Valid() && (View(), out) == Selected(config, old(View()), now)
    {
      if frontiers == [] {
        if config.returnToStart && startPose.Some? {
          status := ReturningHome;
        } else {
          status := Finished;
        }
        return Report(None, 0);
      }
      currentFrontierIdx := 0;
      planningFailures := 0;
      ResetFrontierTracking(frontiers[0].Id(), now);
      status := PlanningPath;
      return Report(Some(frontiers[0].worldCentroid), |frontiers|);
    }

    // ----- planning -----

    method PlanPath(t: Tick) returns (out: Output)
      requires Valid()
      modifies this, follower
      ensures Valid() && (View(), out) == ExplorerModel.PlanPath(config, old(View()), t)
      ensures PlansAsAllowed(config, old(View()), t, View(), out)
      decreases |frontiers| - currentFrontierIdx
    {
      hide Smoothed, Steered, PlansAsAllowed;
      PlanKeepsAllowed(config, View(), t);
      if currentFrontierIdx >= |frontiers| {
        status := Failed;
        return Report(None, 0);
      }
      var target := t.target(frontiers[currentFrontierIdx]);
      if target.None? {
        currentFrontierIdx := currentFrontierIdx + 1;
        out := PlanPath(t);
        return;
      }
      var plan := t.plan(target.value);
      match plan
      case Some(path) =>
        if |path.waypoints| < 2 {
          currentFrontierIdx := currentFrontierIdx + 1;
          out := PlanPath(t);
          return;
        }
        var smoothed := Smooth(config.smoother, path);
        if smoothed.segments == [] {
          currentFrontierIdx := currentFrontierIdx + 1;
          out := PlanPath(t);
          return;
        }
        follower.SetPath(smoothed);
        planningFailures := 0;
        status := Navigating;
        out := Report(target, |frontiers| - currentFrontierIdx);
      case None =>
        planningFailures := planningFailures + 1;
        if planningFailures >= config.maxPlanningFailures {
          currentFrontierIdx := currentFrontierIdx + 1;
          planningFailures := 0;
        }
        out := Report(None, |frontiers| - currentFrontierIdx);
    }

    method Replan(t: Tick) returns (out: Output)
      requires Valid()
      modifies this, follower
      ensures Valid() && (View(), out) == ExplorerModel.Replan(config, old(View()), t)
    {
      hide ExplorerModel.PlanPath;
      follower.ClearPath();
      status := PlanningPath;
      out := PlanPath(t);
    }

    // ----- navigating -----

    method CheckStuck(t: Tick) returns (stuck: bool)
      requires Valid()
      modifies this
      ensures Valid() && (View(), stuck) == ExplorerModel.CheckStuck(config, old(View()), t)
    {
      hide Apart;
      if stuckCheck.pose.None? {
        stuckCheck := StuckCheck(t.now, Some(t.pose));
        return false;
      }
      if t.now - stuckCheck.start < config.stuckWindow {
        return false;
      }
      var distanceMoved := Apart(config, stuckCheck.pose.value.At(), t.pose.At());
      stuckCheck := StuckCheck(t.now, Some(t.pose));
      return distanceMoved < config.stuckDistance;
    }

    method CheckProgress(t: Tick, goal: Point) returns (advancing: bool)
      requires Valid()
      modifies this
      ensures Valid() && (View(), advancing) == ExplorerModel.CheckProgress(config, old(View()), t, goal)
    {
      hide Apart;
      var distanceToGoal := Apart(config, t.pose.At(), goal);
      if progress.lastDistance.Some? {
        if progress.lastDistance.value - distanceToGoal > config.minProgress {
          progress := Progress(t.now, Some(distanceToGoal));
          return true;
        }
      } else {
        progress := Progress(t.now, Some(distanceToGoal));
        return true;
      }
      if t.now - progress.lastTime >= config.frontierTimeout {
        return false;
      }
      progress := progress.(lastDistance := Some(distanceToGoal));
      return true;
    }

    method BeginRecovery(target: Option<Point>) returns (out: Output)
      requires Valid()
      modifies this, follower
      ensures Valid() && (View(), out) == Recover(old(View()), target)
    {
      status := Recovering;
      recovery := RecoveryState(BackingUp, None);
      follower.ClearPath();
      out := Report(target, |frontiers|);
    }

    method Navigate(t: Tick, shouldRefresh: bool) returns (out: Output)
      requires Valid() && t.Sensible()
      modifies this, follower
      ensures Valid() && (View(), out) == ExplorerModel.Navigate(config, old(View()), t, shouldRefresh)
      ensures old(Inv(config, View())) && old(status) == Navigating ==>
        && NavigateStep(config, old(View()), View())
        && NavigateOutcome(config, old(View()), t, shouldRefresh, View(), out)
    {
      hide Recover, ExplorerModel.CheckStuck, ExplorerModel.CheckProgress, Drive, Inv, NavigateStep, NavigateOutcome;
      if Inv(config, View()) && status == Navigating {
        NavigateKeepsInv(config, View(), t, shouldRefresh);
        NavigateCauses(config, View(), t, shouldRefresh);
      }
      if follower.IsComplete() {
        status := SelectingFrontier;
        return Report(None, |frontiers|);
      }
      var goal := follower.Goal();
      var stuck := CheckStuck(t);
      CheckStuckFrame(config, old(View()), t);
      if stuck {
        out := BeginRecovery(goal);
        return;
      }
      if goal.Some? {
        ghost var before := View();
        var advancing := CheckProgress(t, goal.value);
        CheckProgressFrame(config, before, t, goal.value);
        if !advancing {
          BlacklistCurrent(t.now);
          status := SelectingFrontier;
          follower.ClearPath();
          return Report(None, |frontiers|);
        }
      }
      out := DriveOn(t, goal, shouldRefresh);
    }

    method DriveOn(t: Tick, goal: Option<Point>, shouldRefresh: bool) returns (out: Output)
      requires Valid() && t.Sensible()
      modifies this, follower
      ensures Valid() && (View(), out) == Drive(config, old(View()), t, goal, shouldRefresh)
    {
      hide Steered, Scaled, ObstacleAhead, Refreshed;
      if t.obstacleDistance < config.robotRadius / t.resolution {
        status := Replanning;
        return Report(None, |frontiers|);
      }
      var velocity := follower.ComputeVelocity(t.pose);
      if velocity.linear > 0.01 {
        if t.aheadBlocked {
          out := HandleObstacle();
          return;
        }
      }
      var scaled := Scaled(config, t, velocity);
      if shouldRefresh {
        RefreshFrontiers(t);
      }
      out := Output(status, scaled, goal, |frontiers|);
    }

    method HandleObstacle() returns (out: Output)
      requires Valid()
      modifies this, follower
      ensures Valid() && (View(), out) == ObstacleAhead(config, old(View()))
    {
      tracker := tracker.(replans := tracker.replans + 1);
      if tracker.replans >= config.maxReplans {
        out := BeginRecovery(None);
        return;
      }
      status := Replanning;
      follower.ClearPath();
      return Report(None, |frontiers|);
    }

    method RefreshFrontiers(t: Tick)
      requires Valid()
      modifies this, follower
      ensures Valid() && View() == Refreshed(config, old(View()), t)
    {
      lastFrontierRefresh := t.now;
      if t.detected == [] {
        if config.returnToStart && startPose.Some? {
          status := ReturningHome;
          follower.ClearPath();
        } else {
          status := Finished;
        }
      } else if frontiers == [] {
        frontiers := t.detected;
      }
    }

    // ----- going home and escaping -----

    method ReturnHome(t: Tick) returns (out: Output)
      requires Valid()
      modifies this, follower
      ensures Valid() && (View(), out) == ExplorerModel.ReturnHome(config, old(View()), t)
      ensures old(Inv(config, View())) && old(status) == ReturningHome ==>
        HomeStep(config, old(View()), t, View()) && HomeOutcome(config, old(View()), t, View(), out)
    {
      hide Apart, Steered, Smoothed, Inv, HomeStep, HomeOutcome;
      if Inv(config, View()) && status == ReturningHome {
        HomeKeepsInv(config, View(), t);
        HomeCauses(config, View(), t);
      }
      if startPose.None? {
        status := Finished;
        return Report(None, 0);
      }
      var start := startPose.value.At();
      if Apart(config, t.pose.At(), start) < config.goalTolerance {
        status := Finished;
        return Report(None, 0);
      }
      if follower.HasPath() {
        if follower.IsComplete() {
          status := Finished;
          return Report(None, 0);
        }
        var velocity := follower.ComputeVelocity(t.pose);
        return Output(status, velocity, Some(start), 0);
      }
      var plan := t.plan(start);
      match plan {
        case Some(path) =>
          var smoothed := Smooth(config.smoother, path);
          follower.SetPath(smoothed);
        case None =>
          status := Failed;
      }
      return Report(Some(start), 0);
    }

    method EscapeToRetry(t: Tick) returns (out: Output)
      requires Valid()
      modifies this, follower
      ensures Valid() && (View(), out) == ExplorerModel.EscapeToRetry(config, old(View()), t)
      ensures old(Inv(config, View())) && old(status) == EscapingToRetry ==>
        EscapeStep(config, old(View()), t, View()) && EscapeOutcome(config, old(View()), t, View(), out)
    {
      hide Apart, Steered, Smoothed, Inv, EscapeStep, EscapeOutcome;
      if Inv(config, View()) && status == EscapingToRetry {
        EscapeKeepsInv(config, View(), t);
        EscapeCauses(config, View(), t);
      }
      if startPose.None? {
        status := SelectingFrontier;
        return Report(None, |frontiers|);
      }
      var start := startPose.value.At();
      if Apart(config, t.pose.At(), start) < 0.5 {
        lists := lists.(exhaustion := map[], temporary := map[]);
        status := SelectingFrontier;
        return Report(None, 0);
      }
      if follower.HasPath() {
        if follower.IsComplete() {
          follower.ClearPath();
        } else {
          var velocity := follower.ComputeVelocity(t.pose);
          return Output(status, velocity, Some(start), |frontiers|);
        }
      }
      var plan := t.plan(start);
      match plan {
        case Some(path) =>
          var smoothed := Smooth(config.smoother, path);
          follower.SetPath(smoothed);
        case None =>
          lists := lists.(exhaustion := map[], temporary := map[]);
          status := SelectingFrontier;
      }
      return Report(Some(start), |frontiers|);
    }

    // ----- recovering -----

    method ExecuteRecovery(t: Tick) returns (out: Output)
      requires Valid() && Recoverable(View())
      modifies this
      ensures Valid() && (View(), out) == ExplorerModel.ExecuteRecovery(config, old(View()), t)
      ensures old(Inv(config, View())) && old(status) == Recovering ==>
        RecoveryStep(config, old(View()), View()) && RecoveryOutcome(config, old(View()), t, View(), out)
    {
      hide Apart, NormalizeAngle, Inv, RecoveryStep, RecoveryOutcome;
      if Inv(config, View()) && status == Recovering {
        RecoveryKeepsInv(config, View(), t);
        RecoveryCauses(config, View(), t);
      }
      match recovery.phase
      case BackingUp =>
        if recovery.startPose.None? {
          recovery := recovery.(startPose := Some(t.pose));
        }
        if Apart(config, recovery.startPose.value.At(), t.pose.At()) >= config.recoveryBackup {
          recovery := RecoveryState(Rotating, Some(t.pose));
          out := Report(None, |frontiers|);
        } else {
          out := Output(status, Velocity(-0.1, 0.0), None, |frontiers|);
        }
      case Rotating =>
        var angle := NormalizeAngleByLoops(t.pose.theta - recovery.startPose.value.theta);
        if AbsReal(angle) >= config.recoveryRotation {
          recovery := RecoveryState(Done, None);
          tracker := tracker.(recoveries := tracker.recoveries + 1);
          if tracker.recoveries >= config.maxRecoveries {
            BlacklistCurrent(t.now);
            status := SelectingFrontier;
          } else {
            status := Replanning;
          }
          out := Report(None, |frontiers|);
        } else {
          out := Output(status, Velocity(0.0, 0.4), None, |frontiers|);
        }
      case Done =>
        status := Replanning;
        out := Report(None, |frontiers|);
    }
  }

  lemma CountNone(exhaustion: map<FrontierId, nat>)
    ensures Counted(exhaustion, {}) == exhaustion && Spent(exhaustion, {}) == {}
  {
  }

  lemma CountOne(exhaustion: map<FrontierId, nat>, ids: set<FrontierId>, id: FrontierId, count: nat)
    requires id !in ids && count == CountOf(Counted(exhaustion, ids), id) + 1
    ensures Counted(exhaustion, ids)[id := count] == Counted(exhaustion, ids + {id})
    ensures Spent(Counted(exhaustion, ids + {id}), ids + {id}) == Spent(Counted(exhaustion, ids), ids)
      + (if count >= 3 then {id} else {})
  {
  }
}

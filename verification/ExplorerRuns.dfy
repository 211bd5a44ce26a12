/** Whole runs of the explorer: any number of starts and updates, with arbitrary inputs. */
module ExplorerRuns {
  import opened Grids
  import opened CostMaps
  import opened LineQueries
  import opened Planning
  import opened Smoothing
  import opened Following
  import opened ExplorerModel
  import opened ExplorerSafety
  import opened ExplorerSteps

  datatype Event = Start(pose: Pose, now: real) | Step(tick: Tick)

  ghost predicate Legal(c: Config, events: seq<Event>) {
    c.Usable() && forall i :: 0 <= i < |events| && events[i].Step? ==> events[i].tick.Sensible()
  }

  /** The state after a run; it keeps the invariant, whatever the world answers. */
  ghost function After(c: Config, s: ExplorerState, events: seq<Event>): (r: ExplorerState)
    requires Inv(c, s) && Legal(c, events)
    ensures Inv(c, r)
    decreases |events|
  {
    hide Inv, Update;
    if events == [] then s
    else
      var before := After(c, s, events[..|events| - 1]);
      match events[|events| - 1]
      case Start(pose, now) => StartedInv(c, before, pose, now); Started(before, pose, now)
      case Step(t) => UpdateKeepsInv(c, before, t); Update(c, before, t).0
  }

  /** In every run from a new explorer no frontier on the list, nor the one being tracked, is permanently banned. */
  lemma NeverBanned(c: Config, created: real, events: seq<Event>)
    requires Legal(c, events)
    ensures Inv(c, Initial(created))
    ensures var s := After(c, Initial(created), events);
      && NoneBanned(s.frontiers, s.permanent)
      && (Active(s) ==> s.currentId.Some? && s.currentId.value !in s.permanent)
      && (forall id :: id in s.permanent ==> s.triedEscape && CountOf(s.exhaustion, id) == 3)
      && (s.status != EscapingToRetry ==> forall id :: id in s.permanent <==> CountOf(s.exhaustion, id) >= 3)
  {
    InitialInv(c, created);
  }

  /** States along a run of updates. */
  ghost function Trace(c: Config, s: ExplorerState, ticks: seq<Tick>): (r: seq<ExplorerState>)
    requires c.Usable() && Inv(c, s) && forall i :: 0 <= i < |ticks| ==> ticks[i].Sensible()
    ensures |r| == |ticks| + 1 && r[0] == s
    ensures forall i :: 0 <= i < |r| ==> Inv(c, r[i])
    decreases |ticks|
  {
    hide Inv, Update, Ready;
    if ticks == [] then [s]
    else
      NextIsInv(c, s, ticks[0]);
      [s] + Trace(c, Update(c, s, ticks[0]).0, ticks[1..])
  }

  lemma NextIsInv(c: Config, s: ExplorerState, t: Tick)
    requires c.Usable() && t.Sensible() && Inv(c, s)
    ensures Ready(c, s, t) && Inv(c, Update(c, s, t).0)
  {
    hide Inv, Update, Ready;
    UpdateKeepsInv(c, s, t);
  }

  /** How often a run enters the escape. */
  ghost function Escapes(states: seq<ExplorerState>): nat {
    if |states| < 2 then 0
    else
      (if states[0].status != EscapingToRetry && states[1].status == EscapingToRetry then 1 else 0)
      + Escapes(states[1..])
  }

  /** Between two starts the escape is entered at most once. */
  lemma {:induction false} EscapesOnce(c: Config, s: ExplorerState, ticks: seq<Tick>)
    requires c.Usable() && Inv(c, s) && forall i :: 0 <= i < |ticks| ==> ticks[i].Sensible()
    ensures Escapes(Trace(c, s, ticks)) <= if s.triedEscape then 0 else 1
    decreases |ticks|
  {
    hide Inv, Update;
    if ticks != [] {
      UpdateKeepsInv(c, s, ticks[0]);
      var s' := Update(c, s, ticks[0]).0;
      EscapesOnce(c, s', ticks[1..]);
      assert Trace(c, s, ticks)[1..] == Trace(c, s', ticks[1..]);
    }
  }

  /** Recoveries completed, and replans counted, along a run. */
  ghost function CompletedRecoveries(states: seq<ExplorerState>): nat {
    if |states| < 2 then 0
    else
      (if states[0].status == Recovering && states[1].status != Recovering then 1 else 0)
      + CompletedRecoveries(states[1..])
  }

  ghost function CountedReplans(states: seq<ExplorerState>): nat {
    if |states| < 2 then 0 else (if states[1].replans > states[0].replans then 1 else 0) + CountedReplans(states[1..])
  }

  /** No update of the run selects a frontier anew. */
  ghost predicate OneSelection(states: seq<ExplorerState>) {
    forall i :: 0 <= i < |states| - 1 ==> states[i].status != SelectingFrontier
  }

  /**
   Until the next selection the counters say how many recoveries were completed and replans counted, so one selected
   frontier costs at most max_recovery_attempts recoveries and max_replans - 1 + max_recovery_attempts replans.
   */
  lemma {:induction false} BudgetPerSelection(c: Config, s: ExplorerState, ticks: seq<Tick>)
    requires c.Usable() && Inv(c, s) && forall i :: 0 <= i < |ticks| ==> ticks[i].Sensible()
    requires OneSelection(Trace(c, s, ticks))
    ensures var states := Trace(c, s, ticks);
      && s.recoveries + CompletedRecoveries(states) == states[|ticks|].recoveries <= AtLeastOne(c.maxRecoveries)
      && s.replans + CountedReplans(states) == states[|ticks|].replans
      && states[|ticks|].replans <= AtLeastOne(c.maxReplans) - 1 + AtLeastOne(c.maxRecoveries)
    decreases |ticks|
  {
    hide Update, BlacklistSafe, OnTrack;
    if ticks != [] {
      UpdateKeepsInv(c, s, ticks[0]);
      var s' := Update(c, s, ticks[0]).0;
      assert Trace(c, s, ticks)[1..] == Trace(c, s', ticks[1..]);
      assert Trace(c, s, ticks)[0].status != SelectingFrontier;
      forall i | 0 <= i < |Trace(c, s', ticks[1..])| - 1
        ensures Trace(c, s', ticks[1..])[i].status != SelectingFrontier
      {
        assert Trace(c, s, ticks)[i + 1].status != SelectingFrontier;
      }
      BudgetPerSelection(c, s', ticks[1..]);
    }
  }

  /** Planning does not go on for ever: the budget left bounds the number of updates that stay in planning. */
  lemma {:induction false} PlanningEnds(c: Config, s: ExplorerState, ticks: seq<Tick>)
    requires c.Usable() && Inv(c, s) && forall i :: 0 <= i < |ticks| ==> ticks[i].Sensible()
    requires forall i :: 0 <= i <= |ticks| ==> Trace(c, s, ticks)[i].status == PlanningPath
    ensures |ticks| <= Measure(c, s) <= |s.frontiers| * AtLeastOne(c.maxPlanningFailures)
    decreases |ticks|
  {
    hide Inv, PlanPath, Measure;
    assert Trace(c, s, ticks)[0].status == PlanningPath;
    MeasureBounds(c, s);
    if ticks != [] {
      InvMayPlan(c, s);
      PlanKeepsInv(c, s, ticks[0]);
      UpdateKeepsInv(c, s, ticks[0]);
      var s' := Update(c, s, ticks[0]).0;
      assert Trace(c, s, ticks)[1..] == Trace(c, s', ticks[1..]);
      forall i | 0 <= i <= |ticks[1..]|
        ensures Trace(c, s', ticks[1..])[i].status == PlanningPath
      {
        assert Trace(c, s, ticks)[i + 1].status == PlanningPath;
      }
      PlanningEnds(c, s', ticks[1..]);
    }
  }

  lemma MeasureBounds(c: Config, s: ExplorerState)
    requires Inv(c, s) && s.status == PlanningPath
    ensures 0 <= Measure(c, s) <= |s.frontiers| * AtLeastOne(c.maxPlanningFailures)
  {
    BudgetBounds(|s.frontiers|, s.currentIdx, AtLeastOne(c.maxPlanningFailures), s.planningFailures);
  }

  lemma BudgetBounds(n: nat, i: nat, m: nat, failures: nat)
    requires i <= n && failures < m && (i < n || failures == 0)
    ensures 0 <= (n - i) * m - failures <= n * m
  {
    assert n * m == (n - i) * m + i * m;
    if i < n {
      assert (n - i) * m == (n - i - 1) * m + m;
    }
  }

  // ----- recoveries need a cause -----

  lemma {:induction false} TraceStep(c: Config, s: ExplorerState, ticks: seq<Tick>, k: nat)
    requires c.Usable() && Inv(c, s) && forall i :: 0 <= i < |ticks| ==> ticks[i].Sensible()
    requires k < |ticks|
    ensures Ready(c, Trace(c, s, ticks)[k], ticks[k])
    ensures Trace(c, s, ticks)[k + 1] == Update(c, Trace(c, s, ticks)[k], ticks[k]).0
    decreases |ticks|
  {
    hide Inv, Update, Ready;
    InvIsReady(c, Trace(c, s, ticks)[k], ticks[k]);
    UpdateKeepsInv(c, s, ticks[0]);
    var s' := Update(c, s, ticks[0]).0;
    if k > 0 {
      TraceStep(c, s', ticks[1..], k - 1);
    }
  }

  /** Update `j` is the first navigating one that comes a stuck window or more after the navigating update `i`. */
  ghost predicate WindowEnds(c: Config, states: seq<ExplorerState>, ticks: seq<Tick>, i: nat, j: nat)
    requires |states| == |ticks| + 1
  {
    && i < j < |ticks| && states[i].status == Navigating && states[j].status == Navigating
    && ticks[j].now - ticks[i].now >= c.stuckWindow
    && forall k :: i < k < j && states[k].status == Navigating ==> ticks[k].now - ticks[i].now < c.stuckWindow
  }

  /** In every window the robot gets at least the stuck distance away. */
  ghost predicate KeepsMoving(c: Config, states: seq<ExplorerState>, ticks: seq<Tick>)
    requires |states| == |ticks| + 1
  {
    forall i: nat, j: nat :: WindowEnds(c, states, ticks, i, j) ==>
      Apart(c, ticks[i].pose.At(), ticks[j].pose.At()) >= c.stuckDistance
  }

  /** The stuck window of state `k` was opened by the navigating update `i`, and no later one has closed it. */
  ghost predicate OpenedAt(c: Config, states: seq<ExplorerState>, ticks: seq<Tick>, k: nat, i: nat)
    requires |states| == |ticks| + 1 && k <= |ticks|
  {
    && i < k && states[i].status == Navigating
    && states[k].stuckStart == ticks[i].now && states[k].stuckPose == Some(ticks[i].pose)
    && forall m :: i < m < k && states[m].status == Navigating ==> ticks[m].now - ticks[i].now < c.stuckWindow
  }

  ghost predicate WindowKnown(c: Config, states: seq<ExplorerState>, ticks: seq<Tick>, k: nat)
    requires |states| == |ticks| + 1 && k <= |ticks|
  {
    Active(states[k]) && states[k].stuckPose.Some? ==> exists i :: OpenedAt(c, states, ticks, k, i)
  }

  /** A frontier just selected has no stuck window yet. */
  lemma SelectionOpensNone(c: Config, s: ExplorerState, t: Tick)
    requires c.Usable() && t.Sensible() && Inv(c, s) && s.status == SelectingFrontier
    ensures var s' := SelectFrontier(c, s, t).0;
      Active(s') ==> s'.stuckPose.None?
  {
    hide Inv, SelectFrontier, CountOf, Waiting, InOrder;
    SelectCauses(c, s, t);
  }

  /** What an update does to the stuck window. */
  lemma WindowStep(c: Config, s: ExplorerState, t: Tick)
    requires c.Usable() && t.Sensible() && Inv(c, s)
    ensures Ready(c, s, t)
    ensures var s' := Update(c, s, t).0;
      Active(s') && s'.stuckPose.Some? ==>
        || (s.status == Navigating && s'.stuckPose == Some(t.pose) && s'.stuckStart == t.now)
        || (Active(s) && s'.stuckPose == s.stuckPose && s'.stuckStart == s.stuckStart
            && (s.status == Navigating ==> t.now - s.stuckStart < c.stuckWindow))
  {
    hide SelectFrontier, PlanPath, Navigate, ReturnHome, ExecuteRecovery, EscapeToRetry, Apart, Steered, Smoothed,
      NoneBanned, CountsExact, WithinBudget, NavigateDrive, ToGoal, DriveCause;
    InvIsReady(c, s, t);
    match s.status {
      case SelectingFrontier => SelectionOpensNone(c, s, t);
      case PlanningPath => PlanCauses(c, s, t);
      case Navigating => NavigateCauses(c, s, t, t.now - s.lastRefresh > c.frontierRefreshInterval);
      case Replanning => PlanCauses(c, s.(follower := CLEARED, status := PlanningPath), t);
      case Recovering => RecoveryCauses(c, s, t);
      case EscapingToRetry => EscapeCauses(c, s, t);
      case ReturningHome => HomeCauses(c, s, t);
      case _ =>
    }
  }

  lemma {:induction false} WindowsKnown(c: Config, s: ExplorerState, ticks: seq<Tick>, k: nat)
    requires c.Usable() && Inv(c, s) && !Active(s) && forall i :: 0 <= i < |ticks| ==> ticks[i].Sensible()
    requires k <= |ticks|
    ensures WindowKnown(c, Trace(c, s, ticks), ticks, k)
  {
    hide Inv, Update, Trace, Ready;
    var states := Trace(c, s, ticks);
    if k > 0 {
      WindowsKnown(c, s, ticks, k - 1);
      TraceStep(c, s, ticks, k - 1);
      WindowStep(c, states[k - 1], ticks[k - 1]);
      if Active(states[k]) && states[k].stuckPose.Some? {
        if states[k - 1].status == Navigating && states[k].stuckPose == Some(ticks[k - 1].pose)
           && states[k].stuckStart == ticks[k - 1].now {
          assert OpenedAt(c, states, ticks, k, k - 1);
        } else {
          var i :| OpenedAt(c, states, ticks, k - 1, i);
          assert OpenedAt(c, states, ticks, k, i);
        }
      }
    }
  }

  /** Without obstacles ahead, a robot that keeps moving never goes from navigating into recovery. */
  lemma MovingNeverRecovers(c: Config, s: ExplorerState, ticks: seq<Tick>)
    requires c.Usable() && Inv(c, s) && !Active(s) && forall i :: 0 <= i < |ticks| ==> ticks[i].Sensible()
    requires forall i :: 0 <= i < |ticks| ==> !ticks[i].aheadBlocked
    requires KeepsMoving(c, Trace(c, s, ticks), ticks)
    ensures forall k :: 0 <= k < |ticks| && Trace(c, s, ticks)[k].status == Navigating ==>
      Trace(c, s, ticks)[k + 1].status != Recovering
  {
    hide Inv, Update, Trace, Ready, Apart;
    var states := Trace(c, s, ticks);
    forall k | 0 <= k < |ticks| && states[k].status == Navigating
      ensures states[k + 1].status != Recovering
    {
      TraceStep(c, s, ticks, k);
      WindowsKnown(c, s, ticks, k);
      RecoversOnlyStanding(c, states[k], ticks[k]);
      if states[k].stuckPose.Some? && ticks[k].now - states[k].stuckStart >= c.stuckWindow {
        var i :| OpenedAt(c, states, ticks, k, i);
        assert WindowEnds(c, states, ticks, i, k);
      }
    }
  }

  lemma RecoversOnlyStanding(c: Config, s: ExplorerState, t: Tick)
    requires c.Usable() && t.Sensible() && Inv(c, s) && s.status == Navigating && !t.aheadBlocked
    ensures Ready(c, s, t) && (Update(c, s, t).0.status == Recovering ==> Standing(c, s, t))
  {
    hide Update, Apart, Steered, NoneBanned, CountsExact, WithinBudget, NavigateDrive, NavigateTrackers, ToGoal;
    UpdateCauses(c, s, t);
  }

  // ----- clearance of followed paths -----

  /** The grid an update sees and the cost map made from it. */
  datatype World = World(grid: Grid, costMap: CostMap, wallPenalty: nat)

  /**
   In this update the cost map is the one built from the grid with the explorer's radii, and the planner's answers
   are clear on it, as those of `Planning.Plan` are.
   */
  ghost predicate PlansOn(c: Config, w: World, t: Tick) {
    && BuiltFrom(w.costMap, w.grid, CeilCells(c.robotRadius + c.safetyMargin, w.grid.resolution),
                 CeilCells(MARGIN, w.grid.resolution), w.wallPenalty)
    && forall goal {:trigger t.plan(goal)} :: t.plan(goal).Some? ==>
         t.plan(goal).value.waypoints != [] && LegsClear(w.costMap, t.plan(goal).value.waypoints)
  }

  /** Every line of the path is clear on the world's map and keeps the planning radius from all that is lethal there. */
  ghost predicate DrivesClear(c: Config, w: World, segments: seq<PathSegment>) {
    forall j :: 0 <= j < |Lines(segments)| ==>
      var a, b := WorldToGrid(w.costMap, Lines(segments)[j].0), WorldToGrid(w.costMap, Lines(segments)[j].1);
      LineClear(w.costMap, a, b) && LegKeepsClear(w.costMap, w.grid, MaxReal(c.robotRadius + c.safetyMargin, 0.0), a, b)
  }

  lemma SmoothedDrivesClear(c: Config, w: World, t: Tick, goal: Point)
    requires c.Usable() && PlansOn(c, w, t) && t.plan(goal).Some?
    ensures DrivesClear(c, w, Smoothed(c.smoother, t.plan(goal).value).segments)
  {
    hide LineClear, LegKeepsClear, BuiltFrom, WorldToGrid, Segments, TimeSum;
    var points := t.plan(goal).value.waypoints;
    var segments := Smoothed(c.smoother, t.plan(goal).value).segments;
    if |points| >= 2 {
      forall j | 0 <= j < |Lines(segments)|
        ensures var a, b := WorldToGrid(w.costMap, Lines(segments)[j].0), WorldToGrid(w.costMap, Lines(segments)[j].1);
          LineClear(w.costMap, a, b)
          && LegKeepsClear(w.costMap, w.grid, MaxReal(c.robotRadius + c.safetyMargin, 0.0), a, b)
      {
        SmoothedKeepsSight(c.smoother, w.costMap, points, j);
        var a, b := WorldToGrid(w.costMap, Lines(segments)[j].0), WorldToGrid(w.costMap, Lines(segments)[j].1);
        LineOnMapKeepsClear(w.costMap, w.grid, c.robotRadius + c.safetyMargin, CeilCells(MARGIN, w.grid.resolution),
                            w.wallPenalty, a, b);
      }
    }
  }

  ghost predicate Observed(c: Config, events: seq<Event>, worlds: seq<World>) {
    |worlds| == |events| && forall i :: 0 <= i < |events| && events[i].Step? ==> PlansOn(c, worlds[i], events[i].tick)
  }

  /**
   From the planner to the wheels: whatever path the explorer follows, at any point of any run, was planned in one of
   its updates, and all its lines keep clear of every obstacle and unknown cell of the grid of that update.
   */
  lemma {:induction false} FollowsClearPaths(c: Config, created: real, events: seq<Event>, worlds: seq<World>)
    requires Legal(c, events) && Observed(c, events, worlds)
    ensures Inv(c, Initial(created))
    ensures var path := After(c, Initial(created), events).follower.path;
      path.Some? ==> exists i :: 0 <= i < |events| && DrivesClear(c, worlds[i], path.value.segments)
    decreases |events|
  {
    hide Inv, Update, PlansOn, DrivesClear, Smoothed;
    InitialInv(c, created);
    if events != [] {
      var n := |events| - 1;
      FollowsClearPaths(c, created, events[..n], worlds[..n]);
      var before, after := After(c, Initial(created), events[..n]), After(c, Initial(created), events);
      if events[n].Step? {
        StepDrivesClear(c, before, events[n].tick, worlds[n]);
      }
      if after.follower.path.Some? && after.follower.path == before.follower.path {
        var i :| 0 <= i < n && DrivesClear(c, worlds[..n][i], before.follower.path.value.segments);
        assert DrivesClear(c, worlds[i], after.follower.path.value.segments);
      }
    }
  }

  lemma StepDrivesClear(c: Config, s: ExplorerState, t: Tick, w: World)
    requires c.Usable() && t.Sensible() && Inv(c, s) && PlansOn(c, w, t)
    ensures Ready(c, s, t)
    ensures var path := Update(c, s, t).0.follower.path;
      path.None? || path == s.follower.path || DrivesClear(c, w, path.value.segments)
  {
    hide Inv, Update, PlansOn, DrivesClear, Smoothed;
    InvIsReady(c, s, t);
    UpdatePathFrom(c, s, t);
    var path := Update(c, s, t).0.follower.path;
    if path.Some? && path != s.follower.path {
      var goal :| t.plan(goal).Some? && path == Some(Smoothed(c.smoother, t.plan(goal).value));
      SmoothedDrivesClear(c, w, t, goal);
    }
  }
}

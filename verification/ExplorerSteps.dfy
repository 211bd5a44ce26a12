/** Which cause leads to which next state: every update of the explorer, decided by its state and inputs alone. */
module ExplorerSteps {
  import opened Grids
  import opened Angles
  import opened Planning
  import opened Smoothing
  import opened Following
  import opened ExplorerModel
  import opened ExplorerSafety

  // ----- selecting -----

  /** On the temporary blacklist, with the cooldown not over. */
  predicate Waiting(c: Config, s: ExplorerState, t: Tick, id: FrontierId) {
    id in s.blacklist && t.now - s.blacklist[id] < c.blacklistCooldown
  }

  /** Waiting, and for the third time or more. */
  predicate WornOut(c: Config, s: ExplorerState, t: Tick, id: FrontierId) {
    Waiting(c, s, t, id) && CountOf(s.exhaustion, id) + 1 >= 3
  }

  predicate SelectableNow(c: Config, s: ExplorerState, t: Tick, f: Frontier) {
    f in t.detected && !Waiting(c, s, t, f.Id()) && f.Id() !in s.permanent
  }

  /** `a` stands before `b`. */
  ghost predicate Before(all: seq<Frontier>, a: Frontier, b: Frontier) {
    exists p, q :: 0 <= p < q < |all| && all[p] == a && all[q] == b
  }

  /** `chosen` is in the order of `all`. */
  ghost predicate InOrder(all: seq<Frontier>, chosen: seq<Frontier>) {
    forall i, j :: 0 <= i < j < |chosen| ==> Before(all, chosen[i], chosen[j])
  }

  /** With a list, planning starts on its first frontier with fresh trackers; without one, exploration ends. */
  ghost predicate StartsOnFirst(c: Config, t: Tick, s': ExplorerState) {
    if s'.frontiers == [] then s'.status == if c.returnToStart then ReturningHome else Finished
    else
      && s'.status == PlanningPath && s'.currentIdx == 0 && s'.planningFailures == 0
      && s'.currentId == Some(s'.frontiers[0].Id()) && s'.replans == 0 && s'.recoveries == 0
      && s'.lastProgress == t.now && s'.lastDistance == None && s'.stuckStart == t.now && s'.stuckPose == None
  }

  /** The selectable frontiers are listed; only expired entries leave the temporary blacklist. */
  ghost predicate ListsSelectable(c: Config, s: ExplorerState, t: Tick, s': ExplorerState) {
    && SameLists(s, s') && s'.follower == s.follower
    && (forall id :: id in s'.blacklist <==> Waiting(c, s, t, id))
    && (forall f :: f in s'.frontiers <==> SelectableNow(c, s, t, f)) && InOrder(t.detected, s'.frontiers)
    && StartsOnFirst(c, t, s')
  }

  /**
   Every waiting frontier gets one more exhaustion cycle, and the temporary blacklist is emptied. If one is worn out the
   robot escapes, once; later the worn-out ones are banned and all others listed.
   */
  ghost predicate WearsOut(c: Config, s: ExplorerState, t: Tick, s': ExplorerState) {
    && s'.blacklist == map[]
    && (forall id :: CountOf(s'.exhaustion, id) == CountOf(s.exhaustion, id) + (if Waiting(c, s, t, id) then 1 else 0))
    && if !s.triedEscape && exists id :: WornOut(c, s, t, id) then
         s'.status == EscapingToRetry && s'.triedEscape && s'.permanent == s.permanent && s'.follower == CLEARED
       else
         && s'.triedEscape == s.triedEscape && s'.follower == s.follower
         && (forall id :: id in s'.permanent <==> id in s.permanent || WornOut(c, s, t, id))
         && (forall f :: f in s'.frontiers <==> f in t.detected && f.Id() !in s'.permanent)
         && InOrder(t.detected, s'.frontiers)
         && StartsOnFirst(c, t, s')
  }

  /** The second happens exactly when no frontier is selectable but some id is still waiting. */
  ghost predicate SelectStep(c: Config, s: ExplorerState, t: Tick, s': ExplorerState, out: Output) {
    && out.velocity == STOP && out.status == s'.status && s'.lastRefresh == t.now
    && if (exists f :: SelectableNow(c, s, t, f)) || !(exists id :: Waiting(c, s, t, id)) then
         ListsSelectable(c, s, t, s')
       else
         WearsOut(c, s, t, s')
  }

  lemma {:induction false} AllowedInOrder(frontiers: seq<Frontier>, banned: set<FrontierId>)
    ensures InOrder(frontiers, Allowed(frontiers, banned))
  {
    hide Before;
    if frontiers != [] {
      var n := |frontiers| - 1;
      var front, last := frontiers[..n], frontiers[n];
      AllowedInOrder(front, banned);
      assert frontiers == front + [last];
      var all, before := Allowed(frontiers, banned), Allowed(front, banned);
      forall i, j | 0 <= i < j < |all|
        ensures Before(frontiers, all[i], all[j])
      {
        if j < |before| {
          assert Before(front, before[i], before[j]);
        } else {
          AllowedExact(front, banned, before[i]);
        }
        BeforeGrows(front, last, all[i], all[j]);
      }
    }
  }

  lemma BeforeGrows(front: seq<Frontier>, last: Frontier, a: Frontier, b: Frontier)
    ensures Before(front, a, b) || (a in front && b == last) ==> Before(front + [last], a, b)
  {
    var all := front + [last];
    if Before(front, a, b) {
      var p, q :| 0 <= p < q < |front| && front[p] == a && front[q] == b;
      assert all[p] == a && all[q] == b;
    } else if a in front && b == last {
      var p :| 0 <= p < |front| && front[p] == a;
      assert all[p] == a && all[|front|] == b;
    }
  }

  lemma AllowedMembers(frontiers: seq<Frontier>, banned: set<FrontierId>)
    ensures forall f :: f in Allowed(frontiers, banned) <==> f in frontiers && f.Id() !in banned
  {
    forall f
      ensures f in Allowed(frontiers, banned) <==> f in frontiers && f.Id() !in banned
    {
      AllowedExact(frontiers, banned, f);
    }
  }

  lemma SelectedStarts(c: Config, s: ExplorerState, t: Tick)
    requires s.startPose.Some?
    ensures var (s', out) := Selected(c, s, t.now);
      && StartsOnFirst(c, t, s') && s'.frontiers == s.frontiers && s'.follower == s.follower && SameLists(s, s')
      && s'.blacklist == s.blacklist && s'.lastRefresh == s.lastRefresh
      && out.velocity == STOP && out.status == s'.status
  {
  }

  lemma SelectCauses(c: Config, s: ExplorerState, t: Tick)
    requires Inv(c, s) && s.status == SelectingFrontier
    ensures SelectStep(c, s, t, SelectFrontier(c, s, t).0, SelectFrontier(c, s, t).1)
  {
    hide Inv, Allowed, Exhausted, Selected, ListsSelectable, WearsOut, Unexpired, SelectableNow, Waiting;
    StartKnown(c, s);
    var live := Unexpired(c, s.blacklist, t.now);
    var available := Allowed(t.detected, live.Keys + s.permanent);
    LiveIsWaiting(c, s, t, live.Keys);
    AvailableAreSelectable(c, s, t, live, available);
    if available == [] && |live| > 0 {
      SomeWaiting(c, s, t, live);
      ExhaustedCauses(c, s, s.(blacklist := live, lastRefresh := t.now), t);
    } else {
      SomeSelectable(c, s, t, available, live);
      ListedCauses(c, s, t, live, available);
    }
  }

  lemma AvailableAreSelectable(c: Config, s: ExplorerState, t: Tick, live: map<FrontierId, real>,
                               available: seq<Frontier>)
    requires forall id :: id in live <==> Waiting(c, s, t, id)
    requires available == Allowed(t.detected, live.Keys + s.permanent)
    ensures forall f :: f in available <==> SelectableNow(c, s, t, f)
  {
    hide Allowed, Waiting;
    AllowedMembers(t.detected, live.Keys + s.permanent);
  }

  lemma ListedCauses(c: Config, s: ExplorerState, t: Tick, live: map<FrontierId, real>, available: seq<Frontier>)
    requires s.startPose.Some? && forall id :: id in live <==> Waiting(c, s, t, id)
    requires available == Allowed(t.detected, live.Keys + s.permanent)
    requires forall f :: f in available <==> SelectableNow(c, s, t, f)
    ensures var (s', out) := Selected(c, s.(blacklist := live, lastRefresh := t.now, frontiers := available), t.now);
      ListsSelectable(c, s, t, s') && out.velocity == STOP && out.status == s'.status && s'.lastRefresh == t.now
  {
    hide Allowed, InOrder, Selected, StartsOnFirst, SelectableNow, Waiting;
    AllowedInOrder(t.detected, live.Keys + s.permanent);
    SelectedStarts(c, s.(blacklist := live, lastRefresh := t.now, frontiers := available), t);
  }

  lemma StartKnown(c: Config, s: ExplorerState)
    requires Inv(c, s) && s.status != Idle
    ensures s.startPose.Some?
  {
  }

  lemma SomeWaiting(c: Config, s: ExplorerState, t: Tick, live: map<FrontierId, real>)
    requires |live| > 0 && forall id :: id in live <==> Waiting(c, s, t, id)
    ensures exists id :: Waiting(c, s, t, id)
  {
    hide Waiting;
    assert live.Keys != {};
    var id :| id in live.Keys;
    assert Waiting(c, s, t, id);
  }

  lemma SomeSelectable(c: Config, s: ExplorerState, t: Tick, available: seq<Frontier>, live: map<FrontierId, real>)
    requires forall id :: id in live <==> Waiting(c, s, t, id)
    requires forall f :: f in available <==> SelectableNow(c, s, t, f)
    requires available != [] || |live| == 0
    ensures (exists f :: SelectableNow(c, s, t, f)) || !(exists id :: Waiting(c, s, t, id))
  {
    hide Waiting, SelectableNow;
    if available != [] {
      assert SelectableNow(c, s, t, available[0]);
    } else {
      assert live.Keys == {};
    }
  }

  /** `s1` is the state `s` with its expired entries gone. */
  lemma ExhaustedCauses(c: Config, s: ExplorerState, s1: ExplorerState, t: Tick)
    requires s.startPose.Some?
    requires s1 == s.(blacklist := Unexpired(c, s.blacklist, t.now), lastRefresh := t.now)
    ensures var (s', out) := Exhausted(c, s1, t);
      WearsOut(c, s, t, s') && out.velocity == STOP && out.status == s'.status && s'.lastRefresh == t.now
  {
    hide Allowed, InOrder, CountOf, Counted, Selected, StartsOnFirst, Unexpired, Spent, WornOut;
    var ids := s1.blacklist.Keys;
    var counts := Counted(s.exhaustion, ids);
    var spent := Spent(counts, ids);
    LiveIsWaiting(c, s, t, ids);
    SpentIsWornOut(c, s, t, ids);
    AllowedMembers(t.detected, s.permanent + spent);
    AllowedInOrder(t.detected, s.permanent + spent);
    var s2 := s1.(exhaustion := counts, blacklist := map[], permanent := s.permanent + spent);
    SelectedStarts(c, s2.(frontiers := Allowed(t.detected, s.permanent + spent)), t);
  }

  lemma LiveIsWaiting(c: Config, s: ExplorerState, t: Tick, ids: set<FrontierId>)
    requires ids == Unexpired(c, s.blacklist, t.now).Keys
    ensures forall id :: id in ids <==> Waiting(c, s, t, id)
    ensures forall id ::
      CountOf(Counted(s.exhaustion, ids), id) == CountOf(s.exhaustion, id) + (if Waiting(c, s, t, id) then 1 else 0)
  {
    hide Counted, CountOf;
    forall id
      ensures CountOf(Counted(s.exhaustion, ids), id) == CountOf(s.exhaustion, id) + (if id in ids then 1 else 0)
    {
      CountedGrows(s.exhaustion, ids, id);
    }
  }

  lemma SpentIsWornOut(c: Config, s: ExplorerState, t: Tick, ids: set<FrontierId>)
    requires ids == Unexpired(c, s.blacklist, t.now).Keys
    ensures var spent := Spent(Counted(s.exhaustion, ids), ids);
      && (forall id :: id in spent <==> WornOut(c, s, t, id))
      && (spent != {} <==> exists id :: WornOut(c, s, t, id))
  {
    hide Counted, CountOf, Unexpired, Waiting;
    LiveIsWaiting(c, s, t, ids);
    var spent := Spent(Counted(s.exhaustion, ids), ids);
    assert forall id :: id in spent <==> WornOut(c, s, t, id);
    if spent != {} {
      var id :| id in spent;
      assert WornOut(c, s, t, id);
    }
  }

  // ----- planning -----

  /** No target to drive to, or a plan too short to be driven. */
  predicate Skipped(t: Tick, f: Frontier) {
    var target := t.target(f);
    target.None? || (t.plan(target.value).Some? && |t.plan(target.value).value.waypoints| < 2)
  }

  /** The first frontier from `i` on that is not skipped; the number of frontiers when all are. */
  function FirstTried(t: Tick, frontiers: seq<Frontier>, i: nat): (r: nat)
    ensures i <= |frontiers| ==> i <= r <= |frontiers|
    ensures forall k :: i <= k < r && k < |frontiers| ==> Skipped(t, frontiers[k])
    ensures r < |frontiers| ==> !Skipped(t, frontiers[r])
    decreases |frontiers| - i
  {
    if i >= |frontiers| || !Skipped(t, frontiers[i]) then i else FirstTried(t, frontiers, i + 1)
  }

  /**
   Planning goes to the first frontier that is not skipped. Without one it fails; without a path to it a failure is
   counted, and the last failure allowed moves on to the next frontier; with a path the robot follows it.
   */
  ghost predicate PlanOutcome(c: Config, s: ExplorerState, t: Tick, s': ExplorerState, out: Output)
    requires c.Usable() && s.currentIdx <= |s.frontiers|
  {
    var i := FirstTried(t, s.frontiers, s.currentIdx);
    && out.velocity == STOP && out.status == s'.status
    && s' == s.(status := s'.status, currentIdx := s'.currentIdx, planningFailures := s'.planningFailures,
                follower := s'.follower)
    && if i == |s.frontiers| then s'.status == Failed && s'.currentIdx == i && s'.follower == s.follower
       else
         var answer := t.plan(t.target(s.frontiers[i]).value);
         if answer.None? then
           && s'.status == s.status && s'.follower == s.follower
           && if s.planningFailures + 1 < c.maxPlanningFailures then
                s'.currentIdx == i && s'.planningFailures == s.planningFailures + 1
              else
                s'.currentIdx == i + 1 && s'.planningFailures == 0
         else
           && s'.status == Navigating && s'.currentIdx == i && s'.planningFailures == 0
           && s'.follower == State(Some(Smoothed(c.smoother, answer.value)), 0, FollowState.Following)
  }

  lemma {:induction false} PlanCauses(c: Config, s: ExplorerState, t: Tick)
    requires c.Usable() && s.currentIdx <= |s.frontiers|
    ensures PlanOutcome(c, s, t, PlanPath(c, s, t).0, PlanPath(c, s, t).1)
    decreases |s.frontiers| - s.currentIdx
  {
    hide Smoothed, PlanOutcome;
    if s.currentIdx < |s.frontiers| && Skipped(t, s.frontiers[s.currentIdx]) {
      PlanCauses(c, s.(currentIdx := s.currentIdx + 1), t);
      SkipKeepsOutcome(c, s, t, PlanPath(c, s, t).0, PlanPath(c, s, t).1);
    } else {
      PlanHere(c, s, t);
    }
  }

  lemma SkipKeepsOutcome(c: Config, s: ExplorerState, t: Tick, s': ExplorerState, out: Output)
    requires c.Usable() && s.currentIdx < |s.frontiers| && Skipped(t, s.frontiers[s.currentIdx])
    ensures PlanOutcome(c, s.(currentIdx := s.currentIdx + 1), t, s', out) ==> PlanOutcome(c, s, t, s', out)
  {
    hide Smoothed, Skipped;
  }

  lemma PlanHere(c: Config, s: ExplorerState, t: Tick)
    requires c.Usable() && s.currentIdx <= |s.frontiers|
    requires s.currentIdx < |s.frontiers| ==> !Skipped(t, s.frontiers[s.currentIdx])
    ensures PlanOutcome(c, s, t, PlanPath(c, s, t).0, PlanPath(c, s, t).1)
  {
    hide Smoothed;
    if s.currentIdx < |s.frontiers| {
      var target := t.target(s.frontiers[s.currentIdx]).value;
      if t.plan(target).Some? {
        SmoothedPlansHaveSegments(c, t.plan(target).value);
      }
    }
  }

  /** From a state that may plan: the invariant, a smaller budget if planning goes on, and the frontier tried. */
  ghost predicate PlansAsAllowed(c: Config, s: ExplorerState, t: Tick, s': ExplorerState, out: Output)
    requires c.Usable()
  {
    MayPlan(c, s) ==> PlanStep(c, s, s') && PlanOutcome(c, s, t, s', out)
  }

  lemma PlanKeepsAllowed(c: Config, s: ExplorerState, t: Tick)
    requires c.Usable()
    ensures PlansAsAllowed(c, s, t, PlanPath(c, s, t).0, PlanPath(c, s, t).1)
  {
    hide PlanPath, PlanStep, PlanOutcome, NoneBanned, CountsExact;
    if MayPlan(c, s) {
      PlanKeepsInv(c, s, t);
      PlanCauses(c, s, t);
    }
  }

  // ----- navigating -----

  /** Over a whole window the robot has moved less than the threshold. */
  predicate Standing(c: Config, s: ExplorerState, t: Tick) {
    && s.stuckPose.Some? && t.now - s.stuckStart >= c.stuckWindow
    && Apart(c, s.stuckPose.value.At(), t.pose.At()) < c.stuckDistance
  }

  /** Distance to the end of the path being followed. */
  function ToGoal(c: Config, s: ExplorerState, t: Tick): real
    requires s.follower.path.Some? && s.follower.path.value.segments != []
  {
    var segments := s.follower.path.value.segments;
    Apart(c, t.pose.At(), segments[|segments| - 1].EndPoint())
  }

  /** Nearer to the goal than at the last comparison by more than the threshold, or nothing to compare with. */
  predicate Nearer(c: Config, s: ExplorerState, t: Tick)
    requires s.follower.path.Some? && s.follower.path.value.segments != []
  {
    s.lastDistance.None? || s.lastDistance.value - ToGoal(c, s, t) > c.minProgress
  }

  /** Why an update while navigating does not simply drive on, in the order of the checks. */
  datatype Cause = PathDone | Stuck | Timeout | ObstacleNear | Blocked | NothingLeft | Onward

  /** What is left to decide once the stuck and progress checks have passed. */
  function DriveCause(c: Config, s: ExplorerState, t: Tick, refresh: bool): Cause
    requires c.Usable() && t.Sensible() && s.follower.Valid()
  {
    if t.obstacleDistance < c.robotRadius / t.resolution then ObstacleNear
    else if Steered(c.follower, s.follower, t.pose).1.linear > 0.01 && t.aheadBlocked then Blocked
    else if refresh && t.detected == [] then NothingLeft
    else Onward
  }

  function CauseOf(c: Config, s: ExplorerState, t: Tick, refresh: bool): Cause
    requires c.Usable() && t.Sensible() && s.follower.Valid() && s.follower.path.Some?
  {
    if s.follower.state == Complete then PathDone
    else if Standing(c, s, t) then Stuck
    else if !Nearer(c, s, t) && t.now - s.lastProgress >= c.frontierTimeout then Timeout
    else DriveCause(c, s, t, refresh)
  }

  /** The next status says exactly what the cause was. */
  ghost predicate NavigateStatus(c: Config, s: ExplorerState, cause: Cause, s': ExplorerState) {
    var lastReplan := s.replans + 1 >= c.maxReplans;
    && (s'.status == SelectingFrontier <==> cause == PathDone || cause == Timeout)
    && (s'.status == Recovering <==> cause == Stuck || (cause == Blocked && lastReplan))
    && (s'.status == Replanning <==> cause == ObstacleNear || (cause == Blocked && !lastReplan))
    && (s'.status == ReturningHome <==> cause == NothingLeft && c.returnToStart)
    && (s'.status == Finished <==> cause == NothingLeft && !c.returnToStart)
    && (s'.status == Navigating <==> cause == Onward)
    && s'.replans == s.replans + (if cause == Blocked then 1 else 0)
  }

  /** The trackers: the stuck window restarts when it is over, and the goal distance is compared anew every time. */
  ghost predicate NavigateTrackers(c: Config, s: ExplorerState, t: Tick, cause: Cause, s': ExplorerState)
    requires s.currentId.Some? && s.follower.path.Some? && s.follower.path.value.segments != []
  {
    && (if cause != PathDone && (s.stuckPose.None? || t.now - s.stuckStart >= c.stuckWindow) then
          s'.stuckPose == Some(t.pose) && s'.stuckStart == t.now
        else
          s'.stuckPose == s.stuckPose && s'.stuckStart == s.stuckStart)
    && (if cause == PathDone || cause == Stuck || cause == Timeout then
          s'.lastDistance == s.lastDistance && s'.lastProgress == s.lastProgress
        else
          && s'.lastDistance == Some(ToGoal(c, s, t))
          && s'.lastProgress == if Nearer(c, s, t) then t.now else s.lastProgress)
    && s'.blacklist == (if cause == Timeout then s.blacklist[s.currentId.value := t.now] else s.blacklist)
  }

  /** The path is followed only while driving on; a stop for any other reason but a near obstacle gives it up. */
  ghost predicate NavigateDrive(c: Config, s: ExplorerState, t: Tick, cause: Cause, s': ExplorerState, out: Output)
    requires c.Usable() && t.Sensible() && s.follower.Valid()
  {
    var (followed, v) := Steered(c.follower, s.follower, t.pose);
    && out.status == s'.status
    && out.velocity == (if cause == NothingLeft || cause == Onward then Scaled(c, t, v) else STOP)
    && s'.follower == match cause
         case PathDone => s.follower
         case ObstacleNear => s.follower
         case Onward => followed
         case NothingLeft => if c.returnToStart then CLEARED else followed
         case _ => CLEARED
  }

  ghost predicate NavigateOutcome(c: Config, s: ExplorerState, t: Tick, refresh: bool, s': ExplorerState, out: Output)
    requires c.Usable() && t.Sensible() && Inv(c, s) && s.status == Navigating
  {
    var cause := CauseOf(c, s, t, refresh);
    && NavigateStatus(c, s, cause, s')
    && NavigateTrackers(c, s, t, cause, s')
    && NavigateDrive(c, s, t, cause, s', out)
  }

  lemma StuckCheck(c: Config, s: ExplorerState, t: Tick)
    ensures var (s', stuck) := CheckStuck(c, s, t);
      && (stuck <==> Standing(c, s, t))
      && s' == s.(stuckPose := s'.stuckPose, stuckStart := s'.stuckStart)
      && if s.stuckPose.None? || t.now - s.stuckStart >= c.stuckWindow then
           s'.stuckPose == Some(t.pose) && s'.stuckStart == t.now
         else
           s' == s
  {
    hide Apart;
  }

  lemma ProgressCheck(c: Config, s: ExplorerState, t: Tick)
    requires s.follower.path.Some? && s.follower.path.value.segments != []
    ensures s.follower.Goal().Some?
    ensures var (s', progress) := CheckProgress(c, s, t, s.follower.Goal().value);
      && (progress <==> Nearer(c, s, t) || t.now - s.lastProgress < c.frontierTimeout)
      && s' == s.(lastDistance := s'.lastDistance, lastProgress := s'.lastProgress)
      && if !progress then s' == s
         else
           && s'.lastDistance == Some(ToGoal(c, s, t))
           && s'.lastProgress == if Nearer(c, s, t) then t.now else s.lastProgress
  {
    hide Apart;
  }

  lemma DriveCauses(c: Config, s: ExplorerState, t: Tick, goal: Option<Point>, refresh: bool)
    requires c.Usable() && t.Sensible() && s.follower.Valid() && s.status == Navigating && s.startPose.Some?
    ensures var (s', out), cause := Drive(c, s, t, goal, refresh), DriveCause(c, s, t, refresh);
      && NavigateStatus(c, s, cause, s') && NavigateDrive(c, s, t, cause, s', out)
      && s'.stuckPose == s.stuckPose && s'.stuckStart == s.stuckStart
      && s'.lastDistance == s.lastDistance && s'.lastProgress == s.lastProgress && s'.blacklist == s.blacklist
  {
    hide Steered, Scaled, ObstacleAhead, Refreshed;
    var s1 := s.(follower := Steered(c.follower, s.follower, t.pose).0);
    ObstacleOutcome(c, s1);
    RefreshOutcome(c, s1, t);
  }

  lemma ObstacleOutcome(c: Config, s: ExplorerState)
    ensures var (s', out) := ObstacleAhead(c, s);
      && s'.status == (if s.replans + 1 >= c.maxReplans then Recovering else Replanning)
      && s' == s.(status := s'.status, replans := s.replans + 1, follower := CLEARED,
                  phase := s'.phase, recoveryStart := s'.recoveryStart)
      && out.velocity == STOP && out.status == s'.status
  {
  }

  lemma RefreshOutcome(c: Config, s: ExplorerState, t: Tick)
    requires s.startPose.Some?
    ensures var s' := Refreshed(c, s, t);
      && s' == s.(lastRefresh := t.now, status := s'.status, follower := s'.follower, frontiers := s'.frontiers)
      && s'.status == (if t.detected != [] then s.status else if c.returnToStart then ReturningHome else Finished)
      && s'.follower == if t.detected == [] && c.returnToStart then CLEARED else s.follower
  {
  }

  lemma NavigateCauses(c: Config, s: ExplorerState, t: Tick, refresh: bool)
    requires c.Usable() && t.Sensible() && Inv(c, s) && s.status == Navigating
    ensures NavigateOutcome(c, s, t, refresh, Navigate(c, s, t, refresh).0, Navigate(c, s, t, refresh).1)
  {
    hide Steered, Scaled, Standing, Nearer, ToGoal, CheckStuck, CheckProgress, Drive, DriveCause, WithinBudget,
      NoneBanned, CountsExact, NavigateTrackers;
    StuckCheck(c, s, t);
    var s1 := CheckStuck(c, s, t).0;
    ProgressCheck(c, s1, t);
    var s2 := CheckProgress(c, s1, t, s.follower.Goal().value).0;
    DriveCauses(c, s2, t, s.follower.Goal(), refresh);
    SameGoal(c, s, s1, t);
    SameDriveCause(c, s, s2, t, refresh);
    NavigateTracked(c, s, t, refresh);
  }

  lemma NavigateTracked(c: Config, s: ExplorerState, t: Tick, refresh: bool)
    requires c.Usable() && t.Sensible() && Inv(c, s) && s.status == Navigating
    ensures NavigateTrackers(c, s, t, CauseOf(c, s, t, refresh), Navigate(c, s, t, refresh).0)
  {
    hide Steered, Scaled, Standing, Nearer, ToGoal, CheckStuck, CheckProgress, Drive, DriveCause, NoneBanned,
      CountsExact, WithinBudget, NavigateStatus, NavigateDrive;
    StuckCheck(c, s, t);
    var s1 := CheckStuck(c, s, t).0;
    ProgressCheck(c, s1, t);
    var s2 := CheckProgress(c, s1, t, s.follower.Goal().value).0;
    DriveCauses(c, s2, t, s.follower.Goal(), refresh);
    SameGoal(c, s, s1, t);
    SameDriveCause(c, s, s2, t, refresh);
    DriveCausesOnly(c, s, t, refresh);
  }

  lemma DriveCausesOnly(c: Config, s: ExplorerState, t: Tick, refresh: bool)
    requires c.Usable() && t.Sensible() && s.follower.Valid()
    ensures var cause := DriveCause(c, s, t, refresh);
      cause == ObstacleNear || cause == Blocked || cause == NothingLeft || cause == Onward
  {
    hide Steered;
  }

  lemma SameGoal(c: Config, s: ExplorerState, s1: ExplorerState, t: Tick)
    requires s.follower.path.Some? && s.follower.path.value.segments != []
    requires s1 == s.(stuckPose := s1.stuckPose, stuckStart := s1.stuckStart)
    ensures ToGoal(c, s1, t) == ToGoal(c, s, t) && (Nearer(c, s1, t) <==> Nearer(c, s, t))
  {
    hide Apart;
  }

  lemma SameDriveCause(c: Config, s: ExplorerState, s2: ExplorerState, t: Tick, refresh: bool)
    requires c.Usable() && t.Sensible() && s.follower.Valid() && s2.follower == s.follower
    ensures DriveCause(c, s2, t, refresh) == DriveCause(c, s, t, refresh)
  {
    hide Steered;
  }

  /** Near an obstacle the robot drives slower, down to three tenths, but turns as it would anywhere. */
  lemma ScaledSlowsDown(c: Config, t: Tick, v: Velocity)
    requires t.Sensible() && v.linear >= 0.0
    ensures var w, safe := Scaled(c, t, v), (c.robotRadius + c.safetyMargin) / t.resolution;
      && w.angular == v.angular
      && 0.3 * v.linear <= w.linear <= v.linear
      && (t.obstacleDistance >= 2.0 * safe ==> w.linear == v.linear)
      && (0.6 * safe <= t.obstacleDistance < 2.0 * safe ==> w.linear * (2.0 * safe) == v.linear * t.obstacleDistance)
      && (t.obstacleDistance < 0.6 * safe ==> w.linear == 0.3 * v.linear)
  {
    var safe := (c.robotRadius + c.safetyMargin) / t.resolution;
    if t.obstacleDistance < 2.0 * safe {
      var q := t.obstacleDistance / safe / 2.0;
      assert t.obstacleDistance / safe * safe == t.obstacleDistance;
      Factor(q, safe, t.obstacleDistance, v.linear);
    }
  }

  lemma FactorOrder(q: real, k: real, safe: real)
    requires safe > 0.0
    ensures q * safe < k * safe <==> q < k
  {
    if q < k {
      assert (k - q) * safe > 0.0;
    } else {
      assert (q - k) * safe >= 0.0;
    }
  }

  lemma Factor(q: real, safe: real, distance: real, v: real)
    requires safe > 0.0 && 2.0 * q * safe == distance && 0.0 <= distance < 2.0 * safe && v >= 0.0
    ensures 0.0 <= q < 1.0 && (q >= 0.3 <==> distance >= 0.6 * safe)
    ensures v * q * (2.0 * safe) == v * distance
    ensures 0.3 <= q ==> 0.3 * v <= v * q <= v
  {
    FactorOrder(q, 0.0, safe);
    FactorOrder(q, 1.0, safe);
    FactorOrder(q, 0.3, safe);
    assert v * q * (2.0 * safe) == v * (2.0 * q * safe);
    if 0.3 <= q {
      assert v * (q - 0.3) >= 0.0 && v * (1.0 - q) >= 0.0;
    }
  }

  // ----- going home and escaping -----

  /**
   Going home ends exactly near the start or with a completed path, and fails exactly when there is no path to follow
   and none to be planned. On the way the robot follows its path; a path just planned is followed from the next update.
   */
  ghost predicate HomeOutcome(c: Config, s: ExplorerState, t: Tick, s': ExplorerState, out: Output)
    requires c.Usable() && s.startPose.Some? && s.follower.Valid()
  {
    var start, path := s.startPose.value.At(), s.follower.path;
    var ended := Apart(c, t.pose.At(), start) < c.goalTolerance || s.follower.state == Complete;
    var lost := !ended && path.None? && t.plan(start).None?;
    && out.status == s'.status && s' == s.(status := s'.status, follower := s'.follower)
    && s'.status == (if ended then Finished else if lost then Failed else ReturningHome)
    && if ended || lost then s'.follower == s.follower && out.velocity == STOP
       else if path.Some? then (s'.follower, out.velocity) == Steered(c.follower, s.follower, t.pose)
       else s'.follower == WithPath(Smoothed(c.smoother, t.plan(start).value)) && out.velocity == STOP
  }

  lemma HomeCauses(c: Config, s: ExplorerState, t: Tick)
    requires c.Usable() && Inv(c, s) && s.status == ReturningHome
    ensures s.startPose.Some? && HomeOutcome(c, s, t, ReturnHome(c, s, t).0, ReturnHome(c, s, t).1)
  {
    hide Apart, NoneBanned, CountsExact, Smoothed, Steered;
  }

  /** Escaping is going home in the same way, but a completed path is planned anew and the end is another selection. */
  ghost predicate EscapeOutcome(c: Config, s: ExplorerState, t: Tick, s': ExplorerState, out: Output)
    requires c.Usable() && s.startPose.Some? && s.follower.Valid()
  {
    var start := s.startPose.value.At();
    var near := Apart(c, t.pose.At(), start) < 0.5;
    var following := s.follower.path.Some? && s.follower.state != Complete;
    && out.status == s'.status
    && s'.status == (if near || (!following && t.plan(start).None?) then SelectingFrontier else EscapingToRetry)
    && if near then s'.follower == s.follower && out.velocity == STOP
       else if following then (s'.follower, out.velocity) == Steered(c.follower, s.follower, t.pose)
       else
         && out.velocity == STOP
         && s'.follower == if t.plan(start).None? then (if s.follower.path.Some? then CLEARED else s.follower)
                           else WithPath(Smoothed(c.smoother, t.plan(start).value))
  }

  lemma EscapeCauses(c: Config, s: ExplorerState, t: Tick)
    requires c.Usable() && Inv(c, s) && s.status == EscapingToRetry
    ensures s.startPose.Some? && EscapeOutcome(c, s, t, EscapeToRetry(c, s, t).0, EscapeToRetry(c, s, t).1)
  {
    hide Apart, NoneBanned, CountsExact, Smoothed, Steered;
  }

  // ----- recovering -----

  /**
   The robot backs up until it is the backup distance from where it began, then turns on the spot until it has turned
   by the recovery angle; with that the recovery is complete.
   */
  ghost predicate RecoveryOutcome(c: Config, s: ExplorerState, t: Tick, s': ExplorerState, out: Output)
    requires s.phase != Done && Recoverable(s)
  {
    && out.status == s'.status
    && if s.phase == BackingUp then
         var start := if s.recoveryStart.Some? then s.recoveryStart.value else t.pose;
         if Apart(c, start.At(), t.pose.At()) < c.recoveryBackup then
           s' == s.(recoveryStart := Some(start)) && out.velocity == Velocity(-0.1, 0.0)
         else
           s' == s.(phase := Rotating, recoveryStart := Some(t.pose)) && out.velocity == STOP
       else if AbsReal(NormalizeAngle(t.pose.theta - s.recoveryStart.value.theta)) < c.recoveryRotation then
         s' == s && out.velocity == Velocity(0.0, 0.4)
       else
         && s'.status != Recovering && out.velocity == STOP
         && s' == s.(status := s'.status, recoveries := s'.recoveries, blacklist := s'.blacklist,
                     phase := Done, recoveryStart := None)
  }

  lemma RecoveryCauses(c: Config, s: ExplorerState, t: Tick)
    requires Inv(c, s) && s.status == Recovering
    ensures RecoveryOutcome(c, s, t, ExecuteRecovery(c, s, t).0, ExecuteRecovery(c, s, t).1)
  {
    hide Apart, NormalizeAngle, NoneBanned, CountsExact;
  }

  // ----- every update -----

  ghost predicate UpdateOutcome(c: Config, s: ExplorerState, t: Tick, s': ExplorerState, out: Output)
    requires c.Usable() && t.Sensible() && Inv(c, s)
  {
    match s.status
    case SelectingFrontier => SelectStep(c, s, t, s', out)
    case PlanningPath => PlanOutcome(c, s, t, s', out)
    case Navigating => NavigateOutcome(c, s, t, t.now - s.lastRefresh > c.frontierRefreshInterval, s', out)
    case Replanning => PlanOutcome(c, s.(follower := CLEARED, status := PlanningPath), t, s', out)
    case Recovering => RecoveryOutcome(c, s, t, s', out)
    case EscapingToRetry => EscapeOutcome(c, s, t, s', out)
    case ReturningHome => HomeOutcome(c, s, t, s', out)
    case _ => s' == s && out.velocity == STOP && out.status == s.status
  }

  lemma UpdateCauses(c: Config, s: ExplorerState, t: Tick)
    requires c.Usable() && t.Sensible() && Inv(c, s)
    ensures Ready(c, s, t) && UpdateOutcome(c, s, t, Update(c, s, t).0, Update(c, s, t).1)
  {
    hide NoneBanned, CountsExact, SelectFrontier, PlanPath, Navigate, ReturnHome, ExecuteRecovery, EscapeToRetry,
      SelectStep, PlanOutcome, NavigateOutcome, RecoveryOutcome, EscapeOutcome, HomeOutcome;
    match s.status {
      case SelectingFrontier => SelectCauses(c, s, t);
      case PlanningPath => PlanCauses(c, s, t);
      case Navigating => NavigateCauses(c, s, t, t.now - s.lastRefresh > c.frontierRefreshInterval);
      case Replanning => PlanCauses(c, s.(follower := CLEARED, status := PlanningPath), t);
      case Recovering => RecoveryCauses(c, s, t);
      case EscapingToRetry => EscapeCauses(c, s, t);
      case ReturningHome => HomeCauses(c, s, t);
      case _ =>
    }
  }
}

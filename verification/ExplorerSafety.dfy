/** What every run of the explorer keeps: blacklist safety, retry budgets, progress of planning, and no dead ends. */
module ExplorerSafety {
  import opened Grids
  import opened Following
  import opened Smoothing
  import opened Planning
  import opened ExplorerModel

  function AtLeastOne(n: nat): nat {
    if n == 0 then 1 else n
  }

  /** Busy with one selected frontier. */
  predicate Active(s: ExplorerState) {
    s.status == PlanningPath || s.status == Navigating || s.status == Replanning || s.status == Recovering
  }

  // ----- blacklist safety -----

  ghost predicate NoneBanned(frontiers: seq<Frontier>, banned: set<FrontierId>) {
    forall i :: 0 <= i < |frontiers| ==> frontiers[i].Id() !in banned
  }

  /**
   No id goes through more than three exhaustion cycles, and those that went through three are exactly the banned ones.
   */
  ghost predicate CountsExact(exhaustion: map<FrontierId, nat>, permanent: set<FrontierId>) {
    && (forall id :: CountOf(exhaustion, id) <= 3)
    && (forall id :: id in permanent <==> CountOf(exhaustion, id) == 3)
  }

  lemma FreshCountsExact()
    ensures CountsExact(map[], {})
  {
  }

  /**
   The frontier list and the tracked frontier are never permanently banned, banned ids are exactly those with three
   exhaustion cycles, the two blacklists do not overlap, and nothing is banned before the escape has been tried.
   While the robot escapes, the counts that sent it there are still up and nothing is banned.
   */
  ghost predicate BlacklistSafe(s: ExplorerState) {
    && (s.status != Idle ==> s.startPose.Some?)
    && NoneBanned(s.frontiers, s.permanent)
    && (if s.status == EscapingToRetry then s.triedEscape && s.permanent == {}
        else CountsExact(s.exhaustion, s.permanent))
    && s.blacklist.Keys !! s.permanent
    && (!s.triedEscape ==> s.permanent == {})
    && (Active(s) ==> s.currentId.Some? && s.currentId.value !in s.permanent)
  }

  // ----- budgets -----

  /** Retry counters of the frontier at hand. While it is being worked on a recovery is always left. */
  ghost predicate WithinBudget(c: Config, s: ExplorerState) {
    var maxRecoveries, maxReplans := AtLeastOne(c.maxRecoveries), AtLeastOne(c.maxReplans);
    && s.recoveries <= maxRecoveries && s.replans <= maxReplans - 1 + maxRecoveries
    && (Active(s) ==>
          && s.recoveries < maxRecoveries
          && s.replans <= maxReplans - 1 + s.recoveries + (if s.status == Recovering then 1 else 0))
  }

  // ----- no dead ends -----

  /** Indices are in range, paths are there to follow, and recovery is always in one of its two working phases. */
  ghost predicate OnTrack(c: Config, s: ExplorerState) {
    && s.follower.Valid()
    && (Active(s) ==> s.frontiers != [] && s.currentIdx <= |s.frontiers|)
    && (s.status == PlanningPath ==> s.planningFailures < AtLeastOne(c.maxPlanningFailures))
    && (s.status == PlanningPath && s.currentIdx == |s.frontiers| ==> s.planningFailures == 0)
    && (s.status == Navigating || s.status == Replanning || s.status == Recovering ==>
          s.currentIdx < |s.frontiers| && s.planningFailures == 0)
    && (s.status == Navigating ==> s.follower.path.Some?)
    && (s.status == Recovering ==> s.phase != Done && Recoverable(s))
  }

  ghost predicate Inv(c: Config, s: ExplorerState) {
    BlacklistSafe(s) && WithinBudget(c, s) && OnTrack(c, s)
  }

  lemma InitialInv(c: Config, now: real)
    ensures Inv(c, Initial(now))
  {
    FreshCountsExact();
  }

  lemma StartedInv(c: Config, s: ExplorerState, pose: Pose, now: real)
    requires Inv(c, s)
    ensures Inv(c, Started(s, pose, now))
  {
    FreshCountsExact();
  }

  // ----- selection -----

  lemma {:induction false} AllowedNoneBanned(frontiers: seq<Frontier>, banned: set<FrontierId>)
    ensures NoneBanned(Allowed(frontiers, banned), banned)
  {
    if frontiers != [] {
      AllowedNoneBanned(frontiers[..|frontiers| - 1], banned);
    }
  }

  lemma FewerBanned(frontiers: seq<Frontier>, banned: set<FrontierId>, fewer: set<FrontierId>)
    requires NoneBanned(frontiers, banned) && fewer <= banned
    ensures NoneBanned(frontiers, fewer)
  {
  }

  /** Filtering keeps exactly the frontiers that are not banned. */
  lemma {:induction false} AllowedExact(frontiers: seq<Frontier>, banned: set<FrontierId>, f: Frontier)
    ensures f in Allowed(frontiers, banned) <==> f in frontiers && f.Id() !in banned
  {
    if frontiers != [] {
      var front := frontiers[..|frontiers| - 1];
      AllowedExact(front, banned, f);
      assert frontiers == front + [frontiers[|frontiers| - 1]];
    }
  }

  /** A state between steps of the selection: everything about blacklists holds, apart from what the status implies. */
  ghost predicate Selecting(c: Config, s: ExplorerState) {
    && s.startPose.Some? && s.follower.Valid() && s.status == SelectingFrontier
    && CountsExact(s.exhaustion, s.permanent)
    && s.blacklist.Keys !! s.permanent
    && (!s.triedEscape ==> s.permanent == {})
    && WithinBudget(c, s)
  }

  lemma SelectedKeepsInv(c: Config, s: ExplorerState, now: real)
    requires Selecting(c, s) && NoneBanned(s.frontiers, s.permanent)
    ensures Inv(c, Selected(c, s, now).0)
    ensures var s' := Selected(c, s, now).0;
      s'.triedEscape == s.triedEscape && s'.status != EscapingToRetry && s'.blacklist == s.blacklist
  {
    hide CountsExact, CountOf;
  }

  lemma CountedGrows(exhaustion: map<FrontierId, nat>, ids: set<FrontierId>, id: FrontierId)
    ensures CountOf(Counted(exhaustion, ids), id) == CountOf(exhaustion, id) + (if id in ids then 1 else 0)
  {
  }

  /** The ids whose third cycle this is become banned; no other count reaches three. */
  lemma BanningKeepsExact(exhaustion: map<FrontierId, nat>, permanent: set<FrontierId>, ids: set<FrontierId>)
    requires CountsExact(exhaustion, permanent) && ids !! permanent
    ensures CountsExact(Counted(exhaustion, ids), permanent + Spent(Counted(exhaustion, ids), ids))
  {
    hide Counted;
    forall id
      ensures CountOf(Counted(exhaustion, ids), id) == CountOf(exhaustion, id) + (if id in ids then 1 else 0)
    {
      CountedGrows(exhaustion, ids, id);
    }
  }

  /** Either the one escape begins, or every blacklisted id gets another chance, apart from those banned. */
  lemma ExhaustedKeepsInv(c: Config, s: ExplorerState, t: Tick)
    requires Selecting(c, s) && NoneBanned(s.frontiers, s.permanent)
    ensures var s' := Exhausted(c, s, t).0;
      && Inv(c, s')
      && (s.triedEscape ==> s'.triedEscape)
      && (s'.status == EscapingToRetry ==> !s.triedEscape)
      && s'.blacklist == map[]
  {
    hide Selected, Counted, Allowed, CountOf, CountsExact, Spent, Inv, NoneBanned;
    var ids := s.blacklist.Keys;
    var spent := Spent(Counted(s.exhaustion, ids), ids);
    if spent != {} && !s.triedEscape && s.startPose.Some? {
      EscapeBegins(c, s, ids);
    } else {
      var s2 := Banned(s, ids).(frontiers := Allowed(t.detected, Banned(s, ids).permanent));
      BannedIsSelecting(c, s);
      AllowedNoneBanned(t.detected, Banned(s, ids).permanent);
      SelectedKeepsInv(c, s2, t.now);
    }
  }

  /** After counting another cycle for `ids` and banning the spent ones. */
  ghost function Banned(s: ExplorerState, ids: set<FrontierId>): ExplorerState {
    var exhaustion := Counted(s.exhaustion, ids);
    s.(exhaustion := exhaustion, blacklist := map[], permanent := s.permanent + Spent(exhaustion, ids))
  }

  lemma BannedIsSelecting(c: Config, s: ExplorerState)
    requires Selecting(c, s)
    requires Spent(Counted(s.exhaustion, s.blacklist.Keys), s.blacklist.Keys) == {} || s.triedEscape
    ensures Selecting(c, Banned(s, s.blacklist.Keys))
  {
    hide Counted, CountOf, CountsExact, Spent;
    BanningKeepsExact(s.exhaustion, s.permanent, s.blacklist.Keys);
  }

  lemma EscapeBegins(c: Config, s: ExplorerState, ids: set<FrontierId>)
    requires Selecting(c, s) && NoneBanned(s.frontiers, s.permanent) && !s.triedEscape
    ensures Inv(c, s.(exhaustion := Counted(s.exhaustion, ids), blacklist := map[], triedEscape := true,
                      status := EscapingToRetry, follower := CLEARED))
  {
    hide Counted, CountsExact;
  }


  lemma SelectKeepsInv(c: Config, s: ExplorerState, t: Tick)
    requires Inv(c, s) && s.status == SelectingFrontier
    ensures var s' := SelectFrontier(c, s, t).0;
      && Inv(c, s')
      && (s.triedEscape ==> s'.triedEscape)
      && (s'.status == EscapingToRetry ==> !s.triedEscape && s'.triedEscape)
  {
    hide Selected, Exhausted, Allowed, CountsExact, NoneBanned;
    var s1 := s.(blacklist := Unexpired(c, s.blacklist, t.now), lastRefresh := t.now);
    var banned := s1.blacklist.Keys + s1.permanent;
    var available := Allowed(t.detected, banned);
    if available == [] && |s1.blacklist| > 0 {
      ExhaustedKeepsInv(c, s1, t);
    } else {
      AllowedNoneBanned(t.detected, banned);
      FewerBanned(available, banned, s1.permanent);
      SelectedKeepsInv(c, s1.(frontiers := available), t.now);
    }
  }

  /** A detected frontier that is on neither blacklist at this time. */
  ghost predicate Free(c: Config, s: ExplorerState, t: Tick, f: Frontier) {
    f in t.detected && f.Id() !in Unexpired(c, s.blacklist, t.now) && f.Id() !in s.permanent
  }

  /**
   When some detected frontier is free, selection lists exactly the free ones and starts on the first; when nothing is
   free and nothing is waiting for its cooldown, exploration is over.
   */
  lemma SelectionOutcome(c: Config, s: ExplorerState, t: Tick)
    requires Inv(c, s) && s.status == SelectingFrontier
    ensures var s' := SelectFrontier(c, s, t).0;
      (exists f :: Free(c, s, t, f)) ==>
        && (forall f :: f in s'.frontiers <==> Free(c, s, t, f))
        && s'.status == PlanningPath && s'.currentIdx == 0 && s'.currentId == Some(s'.frontiers[0].Id())
        && s'.exhaustion == s.exhaustion && s'.permanent == s.permanent
    ensures !(exists f :: Free(c, s, t, f)) && Unexpired(c, s.blacklist, t.now) == map[] ==>
      SelectFrontier(c, s, t).0.status == if c.returnToStart then ReturningHome else Finished
  {
    hide Exhausted, Allowed, CountsExact, NoneBanned;
    var blacklist := Unexpired(c, s.blacklist, t.now);
    var available := Allowed(t.detected, blacklist.Keys + s.permanent);
    forall f
      ensures f in available <==> Free(c, s, t, f)
    {
      AllowedExact(t.detected, blacklist.Keys + s.permanent, f);
    }
    if available != [] {
      assert Free(c, s, t, available[0]);
    }
  }

  /** Everything about blacklists stays, apart from the temporary one. */
  predicate SameLists(s: ExplorerState, s': ExplorerState) {
    s'.permanent == s.permanent && s'.exhaustion == s.exhaustion && s'.triedEscape == s.triedEscape
  }

  // ----- planning -----

  /** What is left of the planning budget for the selected frontier list. */
  function Measure(c: Config, s: ExplorerState): int {
    (|s.frontiers| - s.currentIdx) * AtLeastOne(c.maxPlanningFailures) - s.planningFailures
  }

  lemma NextFrontierShrinks(n: int, m: nat, failures: nat)
    requires failures < m
    ensures (n - 1) * m < n * m - failures
  {
    assert n * m == (n - 1) * m + m;
  }

  lemma FailureShrinks(n: nat, m: nat, failures: nat)
    requires n > 0 && failures < m
    ensures 0 <= (n - 1) * m < n * m - failures
    ensures failures + 1 < m ==> 0 <= n * m - (failures + 1)
  {
    NextFrontierShrinks(n, m, failures);
    assert (n - 1) * m >= 0;
  }

  /** What each round of planning needs; on the way the failures of a skipped frontier may still be on the counter. */
  ghost predicate MayPlan(c: Config, s: ExplorerState) {
    && s.status == PlanningPath && s.follower.Valid() && s.frontiers != [] && s.currentIdx <= |s.frontiers|
    && s.planningFailures < AtLeastOne(c.maxPlanningFailures)
    && BlacklistSafe(s) && WithinBudget(c, s)
  }

  lemma InvMayPlan(c: Config, s: ExplorerState)
    requires Inv(c, s) && s.status == PlanningPath
    ensures MayPlan(c, s)
  {
  }

  /**
   Planning ends in Navigating, Failed or Planning again; in the last case the budget has strictly shrunk. The list and
   the retry counters stay, and the index never goes back.
   */
  ghost predicate PlanStep(c: Config, s: ExplorerState, s': ExplorerState) {
    && Inv(c, s')
    && SameLists(s, s') && s'.blacklist == s.blacklist
    && s'.frontiers == s.frontiers && s.currentIdx <= s'.currentIdx
    && s'.recoveries == s.recoveries && s'.replans == s.replans
    && (s'.status == PlanningPath || s'.status == Navigating || s'.status == Failed)
    && (s'.status == PlanningPath ==> 0 <= Measure(c, s') < Measure(c, s))
  }

  /** A plan the explorer goes on to follow. */
  predicate Drivable(c: Config, path: PlannedPath)
    requires c.Usable()
  {
    |path.waypoints| >= 2 && Smoothed(c.smoother, path).segments != []
  }

  /** The counter, and the index, after one more planning failure. */
  function AfterFailure(c: Config, s: ExplorerState): ExplorerState {
    var s1 := s.(planningFailures := s.planningFailures + 1);
    if s1.planningFailures < c.maxPlanningFailures then s1
    else s1.(currentIdx := s1.currentIdx + 1, planningFailures := 0)
  }

  lemma PlanSkips(c: Config, s: ExplorerState)
    requires MayPlan(c, s) && s.currentIdx < |s.frontiers|
    ensures var next := s.(currentIdx := s.currentIdx + 1);
      MayPlan(c, next) && Measure(c, next) < Measure(c, s)
  {
    hide NoneBanned, CountsExact;
    NextFrontierShrinks(|s.frontiers| - s.currentIdx, AtLeastOne(c.maxPlanningFailures), s.planningFailures);
  }

  lemma PlanFails(c: Config, s: ExplorerState)
    requires MayPlan(c, s) && s.currentIdx < |s.frontiers|
    ensures PlanStep(c, s, AfterFailure(c, s))
  {
    hide NoneBanned, CountsExact;
    FailureShrinks(|s.frontiers| - s.currentIdx, AtLeastOne(c.maxPlanningFailures), s.planningFailures);
  }

  lemma PlanSucceeds(c: Config, s: ExplorerState, smoothed: SmoothedPath)
    requires MayPlan(c, s) && s.currentIdx < |s.frontiers| && smoothed.segments != []
    ensures PlanStep(c, s, s.(follower := WithPath(smoothed), planningFailures := 0, status := Navigating))
  {
    hide NoneBanned, CountsExact, Measure;
  }

  lemma PlanGivesUp(c: Config, s: ExplorerState)
    requires MayPlan(c, s)
    ensures PlanStep(c, s, s.(status := Failed))
  {
    hide NoneBanned, CountsExact, Measure;
  }

  lemma PlanStepSkipped(c: Config, s: ExplorerState, s': ExplorerState)
    requires MayPlan(c, s) && s.currentIdx < |s.frontiers| && PlanStep(c, s.(currentIdx := s.currentIdx + 1), s')
    ensures PlanStep(c, s, s')
  {
    hide Inv, Measure;
    PlanSkips(c, s);
  }

  /** Planning goes on for a bounded number of updates, whatever the planners answer. */
  lemma {:induction false} PlanKeepsInv(c: Config, s: ExplorerState, t: Tick)
    requires c.Usable() && MayPlan(c, s)
    ensures PlanStep(c, s, PlanPath(c, s, t).0)
    decreases |s.frontiers| - s.currentIdx
  {
    hide Smoothed, MayPlan, PlanStep, Measure;
    if s.currentIdx >= |s.frontiers| {
      PlanGivesUp(c, s);
    } else {
      var target := t.target(s.frontiers[s.currentIdx]);
      if target.None? || (t.plan(target.value).Some? && !Drivable(c, t.plan(target.value).value)) {
        PlanSkips(c, s);
        PlanKeepsInv(c, s.(currentIdx := s.currentIdx + 1), t);
        PlanStepSkipped(c, s, PlanPath(c, s, t).0);
      } else if t.plan(target.value).None? {
        PlanFails(c, s);
      } else {
        PlanSucceeds(c, s, Smoothed(c.smoother, t.plan(target.value).value));
      }
    }
  }

  /** A drivable plan always has segments, so the explorer's second check of the smoothed path never fires. */
  lemma SmoothedPlansHaveSegments(c: Config, path: PlannedPath)
    requires c.Usable() && |path.waypoints| >= 2
    ensures Smoothed(c.smoother, path).segments != []
  {
    SegmentsChain(c.smoother, path.waypoints, |path.waypoints| - 1);
  }

  lemma ReplanKeepsInv(c: Config, s: ExplorerState, t: Tick)
    requires c.Usable() && Inv(c, s) && s.status == Replanning
    ensures var s' := Replan(c, s, t).0;
      Inv(c, s') && s'.triedEscape == s.triedEscape && s'.recoveries == s.recoveries && s'.replans == s.replans
      && (s'.status == PlanningPath || s'.status == Navigating || s'.status == Failed)
  {
    hide PlanPath;
    PlanKeepsInv(c, s.(follower := CLEARED, status := PlanningPath), t);
  }

  // ----- navigating -----

  /**
   An update while navigating counts at most one replan and leaves the frontier list alone. The tracked frontier is
   blacklisted for a while only on the way back to selection, and nothing is banned for good.
   */
  ghost predicate NavigateStep(c: Config, s: ExplorerState, s': ExplorerState)
    requires s.currentId.Some?
  {
    && Inv(c, s')
    && SameLists(s, s') && s'.status != EscapingToRetry
    && s'.frontiers == s.frontiers && s'.currentIdx == s.currentIdx && s'.currentId == s.currentId
    && s'.recoveries == s.recoveries && s.replans <= s'.replans <= s.replans + 1
    && (s'.replans > s.replans ==> s'.status == Recovering || s'.status == Replanning)
    && (s'.blacklist != s.blacklist ==>
          s'.status == SelectingFrontier && s'.blacklist.Keys == s.blacklist.Keys + {s.currentId.value})
  }

  lemma NavigateKeepsInv(c: Config, s: ExplorerState, t: Tick, refresh: bool)
    requires c.Usable() && t.Sensible() && Inv(c, s) && s.status == Navigating
    ensures NavigateStep(c, s, Navigate(c, s, t, refresh).0)
  {
    hide Steered, Apart, Scaled, CheckStuck, CheckProgress, NoneBanned, CountsExact;
    if s.follower.state != Complete {
      var goal := s.follower.Goal();
      var (s1, stuck) := CheckStuck(c, s, t);
      CheckStuckFrame(c, s, t);
      if !stuck {
        var (s2, progress) := if goal.Some? then CheckProgress(c, s1, t, goal.value) else (s1, true);
        if goal.Some? {
          CheckProgressFrame(c, s1, t, goal.value);
        }
        if progress {
          DriveKeepsInv(c, s2, t, goal, refresh);
        }
      }
    }
  }

  lemma CheckStuckFrame(c: Config, s: ExplorerState, t: Tick)
    ensures var s' := CheckStuck(c, s, t).0;
      s' == s.(stuckPose := s'.stuckPose, stuckStart := s'.stuckStart)
  {
  }

  lemma CheckProgressFrame(c: Config, s: ExplorerState, t: Tick, goal: Point)
    ensures var s' := CheckProgress(c, s, t, goal).0;
      s' == s.(lastDistance := s'.lastDistance, lastProgress := s'.lastProgress)
  {
    hide Apart;
  }

  lemma DriveKeepsInv(c: Config, s: ExplorerState, t: Tick, goal: Option<Point>, refresh: bool)
    requires c.Usable() && t.Sensible() && Inv(c, s) && s.status == Navigating
    ensures NavigateStep(c, s, Drive(c, s, t, goal, refresh).0)
  {
    hide Scaled, Steered, ObstacleAhead, Refreshed, NoneBanned, CountsExact;
    var s1 := s.(follower := Steered(c.follower, s.follower, t.pose).0);
    ObstacleKeepsInv(c, s1);
    RefreshKeepsInv(c, s1, t);
  }

  lemma ObstacleKeepsInv(c: Config, s: ExplorerState)
    requires Inv(c, s) && s.status == Navigating
    ensures NavigateStep(c, s, ObstacleAhead(c, s).0)
  {
    hide NoneBanned, CountsExact;
  }

  lemma RefreshKeepsInv(c: Config, s: ExplorerState, t: Tick)
    requires Inv(c, s) && s.status == Navigating
    ensures NavigateStep(c, s, Refreshed(c, s, t))
  {
    hide NoneBanned, CountsExact;
  }

  /** While navigating the frontier list is never empty, so the refresh never installs an unfiltered list. */
  lemma RefreshNeverInstalls(c: Config, s: ExplorerState, t: Tick)
    requires Inv(c, s) && s.status == Navigating
    ensures Refreshed(c, s, t).frontiers == s.frontiers
  {
  }

  // ----- recovering -----

  /**
   Recovery stays in its two working phases. Completing one uses up an attempt: the last one blacklists the frontier
   and returns to selection, any other replans.
   */
  ghost predicate RecoveryStep(c: Config, s: ExplorerState, s': ExplorerState)
    requires s.currentId.Some?
  {
    && Inv(c, s')
    && SameLists(s, s')
    && s'.frontiers == s.frontiers && s'.replans == s.replans
    && s'.recoveries == s.recoveries + (if s'.status == Recovering then 0 else 1)
    && (s'.status != Recovering ==>
          s'.status == if s'.recoveries >= c.maxRecoveries then SelectingFrontier else Replanning)
    && s'.blacklist.Keys == s.blacklist.Keys + (if s'.status == SelectingFrontier then {s.currentId.value} else {})
  }

  lemma RecoveryKeepsInv(c: Config, s: ExplorerState, t: Tick)
    requires Inv(c, s) && s.status == Recovering
    ensures RecoveryStep(c, s, ExecuteRecovery(c, s, t).0)
  {
    hide Apart, NoneBanned, CountsExact;
  }

  // ----- going home and escaping -----

  /** Going home ends near the start, with a completed path or without a plan; nothing else is touched on the way. */
  ghost predicate HomeStep(c: Config, s: ExplorerState, t: Tick, s': ExplorerState)
    requires s.startPose.Some?
  {
    && Inv(c, s')
    && s' == s.(status := s'.status, follower := s'.follower)
    && (s'.status == ReturningHome || s'.status == Finished || s'.status == Failed)
    && (s'.status == Finished <==>
          s.follower.state == Complete || Apart(c, t.pose.At(), s.startPose.value.At()) < c.goalTolerance)
  }

  lemma HomeKeepsInv(c: Config, s: ExplorerState, t: Tick)
    requires c.Usable() && Inv(c, s) && s.status == ReturningHome
    ensures HomeStep(c, s, t, ReturnHome(c, s, t).0)
  {
    hide Apart, NoneBanned, Smoothed, Steered, CountsExact;
  }

  /**
   The escape goes on, or ends with the counts and the temporary blacklist wiped. It ends exactly when the robot is
   near the start, or there is no path left to follow and none to be planned.
   */
  ghost predicate EscapeStep(c: Config, s: ExplorerState, t: Tick, s': ExplorerState)
    requires s.startPose.Some?
  {
    && Inv(c, s')
    && (if s'.status == SelectingFrontier then
          s' == Retry(s).(follower := s'.follower)
        else
          s' == s.(follower := s'.follower))
    && (s'.status == SelectingFrontier <==>
          || Apart(c, t.pose.At(), s.startPose.value.At()) < 0.5
          || ((s.follower.path.None? || s.follower.state == Complete) && t.plan(s.startPose.value.At()).None?))
  }

  lemma EscapeKeepsInv(c: Config, s: ExplorerState, t: Tick)
    requires c.Usable() && Inv(c, s) && s.status == EscapingToRetry
    ensures EscapeStep(c, s, t, EscapeToRetry(c, s, t).0)
  {
    hide Apart, NoneBanned, Smoothed, Steered, CountsExact;
    FreshCountsExact();
  }

  // ----- where paths come from -----

  /** A path the follower holds was there before, or is the smoothed form of one of the planner's answers. */
  ghost predicate PathFrom(c: Config, t: Tick, before: Following.State, after: Following.State)
    requires c.Usable()
  {
    || after.path.None?
    || after.path == before.path
    || exists goal {:trigger t.plan(goal)} ::
         t.plan(goal).Some? && after.path == Some(Smoothed(c.smoother, t.plan(goal).value))
         && after.path.value.segments != []
  }

  lemma {:induction false} PlannedPathFrom(c: Config, s: ExplorerState, t: Tick)
    requires c.Usable()
    ensures PathFrom(c, t, s.follower, PlanPath(c, s, t).0.follower)
    decreases |s.frontiers| - s.currentIdx
  {
    hide Smoothed;
    if s.currentIdx < |s.frontiers| {
      var target := t.target(s.frontiers[s.currentIdx]);
      if target.None? || (t.plan(target.value).Some? && !Drivable(c, t.plan(target.value).value)) {
        PlannedPathFrom(c, s.(currentIdx := s.currentIdx + 1), t);
      }
    }
  }

  lemma SelectedPathFrom(c: Config, s: ExplorerState, t: Tick)
    ensures SelectFrontier(c, s, t).0.follower == s.follower || SelectFrontier(c, s, t).0.follower == CLEARED
  {
    hide Allowed, Counted, Spent, Unexpired;
  }

  lemma NavigatedPathFrom(c: Config, s: ExplorerState, t: Tick, refresh: bool)
    requires c.Usable() && t.Sensible() && s.follower.Valid()
    ensures PathFrom(c, t, s.follower, Navigate(c, s, t, refresh).0.follower)
  {
    hide Apart, Scaled, CheckStuck, CheckProgress, FirstOpen, Command;
    CheckStuckFrame(c, s, t);
    var goal := s.follower.Goal();
    if goal.Some? {
      CheckProgressFrame(c, CheckStuck(c, s, t).0, t, goal.value);
    }
  }

  /** No update puts a path into the follower that the planner did not answer in that very update. */
  lemma UpdatePathFrom(c: Config, s: ExplorerState, t: Tick)
    requires Ready(c, s, t)
    ensures PathFrom(c, t, s.follower, Update(c, s, t).0.follower)
  {
    hide SelectFrontier, PlanPath, Navigate, Smoothed, Apart, FirstOpen, Command;
    match s.status {
      case SelectingFrontier => SelectedPathFrom(c, s, t);
      case PlanningPath => PlannedPathFrom(c, s, t);
      case Navigating => NavigatedPathFrom(c, s, t, t.now - s.lastRefresh > c.frontierRefreshInterval);
      case Replanning => PlannedPathFrom(c, s.(follower := CLEARED, status := PlanningPath), t);
      case _ =>
    }
  }

  // ----- every update -----

  /** In every reachable state an update has all it needs: no index, subtraction or unwrap can fail. */
  lemma InvIsReady(c: Config, s: ExplorerState, t: Tick)
    requires c.Usable() && t.Sensible() && Inv(c, s)
    ensures Ready(c, s, t)
  {
  }

  /** Every update keeps the invariant, and enters the escape only if it has not been tried before. */
  lemma UpdateKeepsInv(c: Config, s: ExplorerState, t: Tick)
    requires c.Usable() && t.Sensible() && Inv(c, s)
    ensures Ready(c, s, t)
    ensures var s' := Update(c, s, t).0;
      && Inv(c, s')
      && (s.triedEscape ==> s'.triedEscape)
      && (s'.status == EscapingToRetry && s.status != EscapingToRetry ==> !s.triedEscape && s'.triedEscape)
    ensures var s' := Update(c, s, t).0;
      s.status != SelectingFrontier ==>
        && s'.recoveries == s.recoveries + (if s.status == Recovering && s'.status != Recovering then 1 else 0)
        && s.replans <= s'.replans <= s.replans + (if s.status == Navigating then 1 else 0)
  {
    hide Inv, SelectFrontier, PlanPath, Navigate, Replan, ReturnHome, ExecuteRecovery, EscapeToRetry;
    InvIsReady(c, s, t);
    match s.status {
      case SelectingFrontier => SelectKeepsInv(c, s, t);
      case PlanningPath => InvMayPlan(c, s); PlanKeepsInv(c, s, t);
      case Navigating => NavigateKeepsInv(c, s, t, t.now - s.lastRefresh > c.frontierRefreshInterval);
      case Replanning => ReplanKeepsInv(c, s, t);
      case ReturningHome => HomeKeepsInv(c, s, t);
      case Recovering => RecoveryKeepsInv(c, s, t);
      case EscapingToRetry => EscapeKeepsInv(c, s, t);
      case _ =>
    }
  }
}

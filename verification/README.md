# Verified models of the VacuumTiger planning, exploration and navigation code

This project models the navigation software of the VacuumTiger robot vacuum and proves what a caller relies on.

- **Cost map** (`Grid`, `Chains`, `Brushfire`, `CostLayers`, `CostMap`, `Bresenham`, `LineQueries`, `NearestCells`): the distance
  field flooded from obstacles and unknown cells, the cost layers over it, the integer line walk behind line of sight and
  wall penalties, and the two nearest-traversable-cell searches.
- **Theta\*** (`SearchTree`, `ThetaStar`, `Planning`): the search with its open set, cost map, parent map and closed set,
  path reconstruction, and the end-to-end clearance of planned legs.
- **Driving** (`Smoother`, `Follower`): waypoints to segments, and the follower that consumes them.
- **Frontiers** (`Frontiers`): frontier cells and their flood-fill clusters.
- **Exploration** (`ExplorerModel`, `ExplorerSafety`, `ExplorerSteps`, `ExplorerRuns`, `Explorer`): the ten-state explorer as
  a function on states, what every update keeps, which cause leads to which next state, what holds over runs, and the
  object whose methods do exactly what the function says.
- **Navigation** (`NavPath`, `NavGeometry`, `NavModel`, `NavSteps`, `NavSafety`, `Navigator`): Douglas-Peucker simplification
  and what its distances mean, the target queue, and the navigator's state machine, again as a function, what each update
  does, its invariants over runs, and the two objects.
- **Odometry** (`Angles`, `Odometry`): 16-bit tick unwrapping over unbounded runs, and the two forms of angle
  normalisation.

`dafny verify dfyconfig.toml` checks everything.

## Conventions

- Arithmetic is exact. Distances of the flood are integers in thousandths of a cell (1000 straight, 1414 diagonal) and
  `Infinite` stands for `f32::MAX`; other floats are reals. Conversions to `u8` truncate and saturate; `u8` and `u16` are
  bounded types, so Dafny also checks that the cost subtractions cannot wrap. `PI` is the single-precision constant,
  written as an exact fraction.
- Square root, arc tangent, sine and cosine are parameters (`norm`, `sqrt`, `atan2`, `cos`, `sin`): statements hold for any
  such function, or for those with the condition stated beside them, such as a square root that squares back.
- `BinaryHeap` is a multiset from which a node of lowest score is taken, ties either way. `HashMap` and `HashSet` are maps
  and sets; loops over their keys take the keys in any order.
- An explorer or navigator update gets its outside world as one record: the time, the pose, the detected frontiers, and
  functions that answer for the target chooser and the path planner. The program reads its clock several times in one
  update; here one update has one time.
- `Explorer` keeps each of the source's groups of trackers (per-frontier, progress, stuck, blacklists, recovery) in one
  record field. Fields that are only written, and log messages, are left out.
- Where code and prose disagree the model follows the code: the design note gives the flood unit steps and an unnormalised
  wall penalty (`dhruva-nav/proposal.md:275-288`, `dhruva-nav/proposal.md:384-388`), while the code uses 1.0 and 1.414 and
  charges weight times mean penalty times distance; the inflation zone is called exponential and is linear
  (`dhruva-nav/src/planning/cost_map.rs:226`); the ring scan is called a breadth-first search and its rings Manhattan-ish
  (`dhruva-nav/src/planning/theta_star.rs:302-316`), and they are Chebyshev rings; clustering names eight neighbours but
  looks at the whole square of `cluster_distance`, eight times over
  (`dhruva-nav/src/exploration/frontier.rs:199-236`).

## Findings

- `FindClosestReachableTo` meets its documentation exactly when the target lies in the grid or touches it, or nothing is
  within the radius. For a target farther outside it answers `None` whatever lies within the radius
  (`NearestCells.FarTargetMissed`: two cells left of a one-cell map, radius 2); the ring scan does not have this gap.
- Traversable cells do not begin at the inscribed radius but 1/204 of the safety margin beyond it
  (`CostLayers.TraversableThreshold`): up to there the inflated cost truncates to the inscribed cost. With a radius of 24
  cells and a margin of 8 this blocks the cell 17 diagonal moves away, at 24.038 cells (`CostLayers.SliverBlocked`); at
  the defaults, three cells and two, no octile distance falls in between (`CostLayers.DefaultRadiiExact`).
- Douglas-Peucker ends on every path if and only if the tolerance is not negative (`NavPath.ToleranceExact`). With any
  negative tolerance it never ends on (0, 0), (1, 0), (2, 0) (`NavPath.StraightPathLoops`); on paths where it does end, it
  drops nothing (`NavPath.NegativeKeepsAll`).
- The replan attempts are documented as those of the current target (`dhruva-slam/src/navigation/state.rs:151-152`), but
  only a target queued behind another one, or the first after a clear or reset, is sure to start at zero. Popping the last target
  keeps the count, and a target pushed on the empty queue inherits it, as single pushes do
  (`dhruva-slam/src/threads/navigation_thread.rs:543`): a target gets at most `max_replan_attempts` minus the inherited
  attempts (`NavSafety.EveryRun`, `NavSafety.InheritedExactly`), and can fail without the planner being asked for it at
  all (`NavSafety.NeverPlanned`).
- A failed navigation is final: neither new targets nor updates leave `Failed` (`NavSafety.FailedStays`); only popping,
  clearing or resetting does.
- Outside the escape, the permanently blacklisted frontiers are exactly those with three exhaustion cycles, and no frontier
  ever has more.

## Model

| member | source | states |
|---|---|---|
| Grids.IndexIsRowMajor | dhruva-nav/src/planning/cost_map.rs:82 | the flat index of a cell is y * width + x |
| Grids.IndexInjective | dhruva-nav/src/planning/cost_map.rs:82 | different grid cells have different flat indices |
| Brushfire.ComputeDistanceField | dhruva-nav/src/planning/cost_map.rs:123-165 | the flood ends, however often cells are relabelled and queued again, with every cell at its exact octile distance to the nearest seed, or infinite when there is no seed |
| Brushfire.FloodIsExact | dhruva-nav/src/planning/cost_map.rs:144-164 | once the queue is empty no cell is farther than the octile distance to any seed |
| Brushfire.LoweredKeepsPending | dhruva-nav/src/planning/cost_map.rs:157-163 | lowering a label and queueing the cell keeps every unqueued cell unable to improve a neighbour |
| Brushfire.ImproveShrinks | dhruva-nav/src/planning/cost_map.rs:160-162 | every relabelling shrinks a measure, so cells cannot be queued for ever |
| Brushfire.OctileToward | dhruva-nav/src/planning/cost_map.rs:132-142 | one king move towards a cell uses up exactly its length, so octile distances are path lengths |
| Brushfire.OctileVersusEuclid | dhruva-nav/src/planning/cost_map.rs:129-142 | squared octile length is at most 1.171396 times squared Euclidean length |
| Brushfire.NearestUnique | dhruva-nav/src/planning/cost_map.rs:123-165 | the nearest-seed distance is unique |
| CostLayers.ApplyCostLayers | dhruva-nav/src/planning/cost_map.rs:168-256 | the loop over blocks of four with its tail equals the pointwise map: lethal stays lethal, every other cell gets the cost of its distance |
| CostLayers.CostFreeBlock | dhruva-nav/src/planning/cost_map.rs:211-243 | a block without lethal cells gets the same costs from lane masks as cell by cell |
| CostLayers.NeverLethal | dhruva-nav/src/planning/cost_map.rs:259-279 | no distance yields the lethal cost |
| CostLayers.Antitone | dhruva-nav/src/planning/cost_map.rs:259-279 | costs never grow with the distance from obstacles, across all four zones |
| CostLayers.Bands | dhruva-nav/src/planning/cost_map.rs:267-275 | inflated cells cost 50 to 254, cells near a wall 1 to 50 |
| CostLayers.LinearLayers | dhruva-nav/src/planning/cost_map.rs:267-277 | both zones are linear in the distance, rounded to whole steps: from 254 to 50 across the margin, from 50 down to 1 near a wall |
| CostLayers.TraversableThreshold | dhruva-nav/src/planning/cost_map.rs:259-313 | a cell is traversable if and only if it is beyond the inscribed radius by at least 1/204 of the safety margin |
| CostLayers.SliverBlocked | dhruva-nav/src/planning/cost_map.rs:259-279 | a cell beyond the inscribed radius that is not traversable |
| CostLayers.DefaultRadiiExact | dhruva-nav/src/exploration/explorer.rs:287-298 | at the default radii a cell is traversable if and only if it is beyond the inscribed radius |
| CostMaps.FromGrid | dhruva-nav/src/planning/cost_map.rs:55-120 | the cost map of a grid: every distance is to the nearest obstacle or unknown cell, every cost is lethal or the layer cost of that distance |
| CostMaps.MarkObstacles | dhruva-nav/src/planning/cost_map.rs:74-90 | exactly the obstacle and unknown cells are marked, zeroed and queued |
| CostMaps.WorldRoundTrip | dhruva-nav/src/planning/cost_map.rs:494-507 | the centre of a cell converts back to that cell |
| Bresenham.AdvanceToNextCell | dhruva-nav/src/planning/cost_map.rs:426-434 | one pass of the error-term loop moves from cell k of the closed form to cell k + 1 |
| Bresenham.AtCellPosition | dhruva-nav/src/planning/cost_map.rs:404-434 | the loop's position is the closed form: each coordinate k/n of the way, rounded with ties towards the start |
| Bresenham.Endpoints | dhruva-nav/src/planning/cost_map.rs:422-424 | the walk starts at one end, reaches the other after max(dx, dy) moves and not before, both coordinates at once |
| Bresenham.KingMoves | dhruva-nav/src/planning/cost_map.rs:426-434 | consecutive cells are one king move apart |
| Bresenham.InsideBox | dhruva-nav/src/planning/cost_map.rs:404-438 | the walk stays in the bounding box of its ends |
| Bresenham.NearLine | dhruva-nav/src/planning/cost_map.rs:415-434 | twice the cross product of walked and exact direction never exceeds max(dx, dy) |
| LineQueries.LineOfSight | dhruva-nav/src/planning/cost_map.rs:404-438 | terminates, and is true exactly when all cells of the walk are traversable |
| LineQueries.DirectionMatters | dhruva-nav/src/planning/cost_map.rs:404-438 | the two directions between the same cells can visit different cells |
| LineQueries.NeighborLineClear | dhruva-nav/src/planning/cost_map.rs:404-438 | two traversable neighbours see each other |
| LineQueries.IntegrateWallPenalty | dhruva-nav/src/planning/cost_map.rs:443-490 | terminates on the same cells with their mean penalty, which lies in [0, 1] |
| LineQueries.WallPenaltyZero | dhruva-nav/src/planning/cost_map.rs:443-490 | the mean penalty is zero if and only if it is zero at every cell of the walk |
| LineQueries.CellPenaltyZero | dhruva-nav/src/planning/cost_map.rs:461-463 | a cell's penalty is zero if and only if it keeps the penalty distance |
| LineQueries.CellPenaltyFalls | dhruva-nav/src/planning/cost_map.rs:461-463 | the penalty falls strictly with the distance below the limit, from 1 at an obstacle |
| LineQueries.WallPenaltyUniform | dhruva-nav/src/planning/cost_map.rs:443-490 | where all cells have the same penalty, that is the mean |
| NearestCells.FindClosestReachableTo | dhruva-nav/src/planning/cost_map.rs:322-382 | the search returns a nearest traversable cell within the radius, or none exactly when there is none, if and only if the target touches the grid or nothing is in reach |
| NearestCells.FarTargetMissed | dhruva-nav/src/planning/cost_map.rs:322-382 | a target off the grid whose reachable cell the search misses |
| NearestCells.NothingMissed | dhruva-nav/src/planning/cost_map.rs:351-378 | the breadth-first search proceeds in Chebyshev rings and misses no cell |
| NearestCells.FindNearestTraversable | dhruva-nav/src/planning/theta_star.rs:304-332 | the ring scan returns a nearest traversable cell within the radius, or none exactly when there is none |
| NearestCells.SearchesAgree | dhruva-nav/src/planning/theta_star.rs:304-332 | searches meeting the contract agree on success and on the distance found |
| SearchTree.TreePathIsClear | dhruva-nav/src/planning/theta_star.rs:145-280 | walking the parent map back from any cell reaches the start without repeating a cell, over clear legs, and path costs add up to the cost-so-far |
| SearchTree.TreeCostBounds | dhruva-nav/src/planning/theta_star.rs:251-259 | the cost-so-far lies between the length of the tree path and (1 + weight) times it |
| SearchTree.CostBounds | dhruva-nav/src/planning/theta_star.rs:251-259 | the cost of any path lies between its length and (1 + weight) times its length |
| SearchTree.EdgeCostIsLength | dhruva-nav/src/planning/theta_star.rs:251-259 | with a positive weight, a leg of positive length costs just its length if and only if all its cells keep the penalty distance |
| SearchTree.EdgeCostUniform | dhruva-nav/src/planning/theta_star.rs:251-259 | a leg of uniform penalty costs (1 + weight * penalty) times its length |
| ThetaStar.ConnectKeepsRooted | dhruva-nav/src/planning/theta_star.rs:225-227 | re-parenting an open cell to a closed one with line of sight keeps the parent map a tree rooted at the start |
| ThetaStar.CloseKeepsRooted | dhruva-nav/src/planning/theta_star.rs:186-190 | closing a cell keeps the tree and the closing order of parents before children |
| ThetaStar.ConnectKeepsTight | dhruva-nav/src/planning/theta_star.rs:192-234 | taking an offer no dearer than the known cost keeps every closed cell relaxed towards its neighbours |
| ThetaStar.CloseKeepsTight | dhruva-nav/src/planning/theta_star.rs:186-190 | so does closing a cell |
| ThetaStar.ChooseParent | dhruva-nav/src/planning/theta_star.rs:192-221 | the grandparent is chosen exactly when it differs from the cell and sees the neighbour; either way the new parent is closed and sees it |
| ThetaStar.VisitNeighbor | dhruva-nav/src/planning/theta_star.rs:196-235 | one neighbour keeps tree, coverage and relaxed costs, adds at most one node, leaves closed entries alone and raises no cost |
| ThetaStar.DryMeansUnreachable | dhruva-nav/src/planning/theta_star.rs:172-239 | an empty open set means no chain of traversable cells reaches the goal region |
| ThetaStar.PopLowest | dhruva-nav/src/planning/theta_star.rs:58-72 | the node taken has the lowest score |
| ThetaStar.Search | dhruva-nav/src/planning/theta_star.rs:139-240 | a returned path is clear, repeats no cell, ends in the goal region and is a path of the tree grown, in which no open cell scores below its end and no traversable neighbour of a closed cell, unless closed before it, costs more than going through that cell or its parent; within the cap, none is returned exactly when no chain exists; 8 * width * height + 1 pops always suffice |
| ThetaStar.ReconstructPath | dhruva-nav/src/planning/theta_star.rs:262-280 | ends, and returns the tree path from the start |
| Planning.Plan | dhruva-nav/src/planning/theta_star.rs:93-136 | the waypoints are centres of distinct cells, from a nearest traversable start to the goal region, with clear legs, along the path the search found in its tree; with a large enough cap, none has exactly the three causes named |
| Planning.ComputePathLength | dhruva-nav/src/planning/theta_star.rs:283-300 | the length is the sum over consecutive waypoints |
| Planning.CentresLength | dhruva-nav/src/planning/theta_star.rs:283-300 | for a length that scales with its offset, the plan is as long as its cells times the cell width |
| Planning.CellClearance | dhruva-nav/src/planning/cost_map.rs:55-313 | a traversable cell is farther than the robot radius, in octile cells, from every obstacle and unknown cell |
| Planning.MetricClearance | dhruva-nav/src/planning/cost_map.rs:55-313 | in metres, 1.171396 times the squared distance between the centres exceeds the squared radius |
| Planning.TraversableIsPassable | dhruva-nav/src/planning/cost_map.rs:55-313 | which cells are traversable depends on the grid and the radii alone |
| Planning.PlanOnGrid | dhruva-nav/src/exploration/explorer.rs:287-298 | end to end, for a fresh cost map: the legs run from the start cell to the goal region, and every cell under them keeps the planning radius, up to the octile factor, from every obstacle and unknown cell; with a large enough cap, none means nothing passable near the start, an impassable goal, or no chain of passable cells |
| Smoothing.Smooth | dhruva-nav/src/planning/smoother.rs:110-175 | the segments are those of the turn rule, and their total length is the plan's length |
| Smoothing.SegmentsConserve | dhruva-nav/src/planning/smoother.rs:123-167 | the lines, in order, are exactly the legs between waypoints, and no length is lost or added |
| Smoothing.SegmentsChain | dhruva-nav/src/planning/smoother.rs:123-164 | segments chain end to start from first to last waypoint, and turns sit only at interior waypoints |
| Smoothing.SegmentsTurn | dhruva-nav/src/planning/smoother.rs:123-164 | a turn stands between two lines if and only if the heading changes by more than the smaller threshold, and it turns from the heading of the one to that of the other |
| Smoothing.SmoothedKeepsSight | dhruva-nav/src/planning/smoother.rs:110-175 | line of sight of a plan carries over to every line of its smoothed form |
| Smoothing.EstimateTraversalTime | dhruva-nav/src/planning/smoother.rs:178-199 | the time is the sum over segments of length over speed and turn over turning speed, and a number exactly when no segment needs a speed of zero |
| Smoothing.TimeSplits | dhruva-nav/src/planning/smoother.rs:178-199 | the time is the whole length at driving speed plus all turns at turning speed |
| Following.PathFollower.ComputeVelocity | dhruva-nav/src/exploration/follower.rs:118-158 | terminates, and moves to the first open segment with the command for it, or completes and stops |
| Following.FirstOpenSkips | dhruva-nav/src/exploration/follower.rs:161-196 | exactly the segments whose exit test passes are skipped |
| Following.SteeredOutcome | dhruva-nav/src/exploration/follower.rs:118-288 | the segments passed are those with less left than their tolerance; the follower is complete with zero velocity, or steers, within the limits, for the first segment with more left |
| Following.CommandBounds | dhruva-nav/src/exploration/follower.rs:183-275 | turning speed stays within its limit and forward speed between 0 and max(limit, 0.03) |
| Following.CommandTurns | dhruva-nav/src/exploration/follower.rs:183-275 | the robot turns towards the heading it needs, in proportion to the error up to the limit, and not at all without an error |
| Following.DriveSpeed | dhruva-nav/src/exploration/follower.rs:218-275 | forward speed is held down by distance, limit and heading error, at full share when the heading is right, with the floor far from the target |
| Following.AngleFactorCorners | dhruva-nav/src/exploration/follower.rs:218-275 | the speed factor runs along straight lines between its three corners |
| Following.TurnPassedMeans | dhruva-nav/src/exploration/follower.rs:183-196 | a turn is passed if and only if some angle equal to what is left, up to whole turns, is below 0.17 |
| Frontiers.FindFrontierCells | dhruva-nav/src/exploration/frontier.rs:151-186 | exactly the inner floor cells that border the unknown, each once, in row order |
| Frontiers.ClusterFrontiers | dhruva-nav/src/exploration/frontier.rs:189-245 | the clusters partition the frontier cells, and two cells share one if and only if a chain of frontier cells with steps within the cluster distance joins them |
| Frontiers.GrowCluster | dhruva-nav/src/exploration/frontier.rs:216-237 | one flood fill yields a whole component that no earlier cluster touches |
| Frontiers.SameComponent | dhruva-nav/src/exploration/frontier.rs:189-245 | membership in a component is connectedness, both ways |
| ExplorerSafety.UpdateKeepsInv | dhruva-nav/src/exploration/explorer.rs:287-333 | every update keeps blacklist safety, budgets and indices, and enters the escape only when it has not been tried |
| ExplorerSafety.InvIsReady | dhruva-nav/src/exploration/explorer.rs:287-333 | in every reachable state the unwraps, subtractions and indices of an update are safe |
| ExplorerSafety.SelectKeepsInv | dhruva-nav/src/exploration/explorer.rs:336-470 | selection never lists a banned frontier and resets the budgets |
| ExplorerSafety.SelectionOutcome | dhruva-nav/src/exploration/explorer.rs:343-469 | selection lists exactly the detected frontiers on neither blacklist and starts on the first, or ends the exploration |
| ExplorerSafety.ExhaustedKeepsInv | dhruva-nav/src/exploration/explorer.rs:363-424 | when all frontiers are blacklisted, the one escape begins or the spent ones are banned, and the temporary list is emptied |
| ExplorerSafety.BanningKeepsExact | dhruva-nav/src/exploration/explorer.rs:370-414 | the ids reaching their third cycle are exactly those that become banned |
| ExplorerSafety.PlanKeepsInv | dhruva-nav/src/exploration/explorer.rs:473-585 | planning ends in navigating, failing, or planning again with a strictly smaller budget, for any planner answers, and keeps list, blacklists and retry counters |
| ExplorerSafety.SmoothedPlansHaveSegments | dhruva-nav/src/exploration/explorer.rs:528-536 | a plan of two waypoints or more always has segments, so the second check never fires |
| ExplorerSafety.NavigateKeepsInv | dhruva-nav/src/exploration/explorer.rs:588-786 | navigating counts at most one replan per update, leaves the frontier list alone, bans nothing, and blacklists the tracked frontier only on the way back to selection |
| ExplorerSafety.RefreshNeverInstalls | dhruva-nav/src/exploration/explorer.rs:762-778 | the unfiltered refresh assignment is never reached |
| ExplorerSafety.RecoveryKeepsInv | dhruva-nav/src/exploration/explorer.rs:1082-1182 | recovery is never in the phase the code calls impossible; completing one uses an attempt, the last one blacklists the frontier and returns to selection, any other replans |
| ExplorerSafety.HomeKeepsInv | dhruva-nav/src/exploration/explorer.rs:796-869 | going home finishes exactly near the start or on a completed path, and touches nothing but status and path |
| ExplorerSafety.EscapeKeepsInv | dhruva-nav/src/exploration/explorer.rs:872-950 | the escape ends exactly near the start or when no path home is left, with counts and temporary blacklist wiped |
| ExplorerSafety.UpdatePathFrom | dhruva-nav/src/exploration/explorer.rs:287-333 | an update keeps the followed path, clears it, or takes one the planner answered in that update |
| ExplorerSteps.SelectCauses | dhruva-nav/src/exploration/explorer.rs:336-470 | which frontiers are listed, in which order, when the robot escapes, who is banned, and when exploration ends, from blacklists, counts and detections alone |
| ExplorerSteps.PlanCauses | dhruva-nav/src/exploration/explorer.rs:473-585 | planning goes to the first frontier with a target and a drivable or missing plan; which of the three outcomes follows, and what it changes |
| ExplorerSteps.NavigateCauses | dhruva-nav/src/exploration/explorer.rs:588-786 | for each next status of a navigating update, the exact condition on state and inputs; the trackers, the path and the velocity after it |
| ExplorerSteps.ScaledSlowsDown | dhruva-nav/src/exploration/explorer.rs:731-743 | near an obstacle the speed falls in proportion to the distance, from full to three tenths, and turning is untouched |
| ExplorerSteps.HomeCauses | dhruva-nav/src/exploration/explorer.rs:796-869 | exactly when going home ends, fails, follows or plans |
| ExplorerSteps.EscapeCauses | dhruva-nav/src/exploration/explorer.rs:872-950 | exactly when the escape ends, follows or plans |
| ExplorerSteps.RecoveryCauses | dhruva-nav/src/exploration/explorer.rs:1082-1182 | the robot backs up to the backup distance, then turns to the recovery angle, and only then is done |
| ExplorerRuns.NeverBanned | dhruva-nav/src/exploration/explorer.rs:203-452 | in every run, no listed or tracked frontier is permanently banned, and outside the escape the banned ones are exactly those with three cycles |
| ExplorerRuns.FollowsClearPaths | dhruva-nav/src/exploration/explorer.rs:203-950 | in every run, the lines of the path being followed are clear on the cost map of the update that planned it, and keep the planning radius from every obstacle and unknown cell of its grid |
| ExplorerRuns.EscapesOnce | dhruva-nav/src/exploration/explorer.rs:384-400 | between two starts the escape is entered at most once |
| ExplorerRuns.BudgetPerSelection | dhruva-nav/src/exploration/explorer.rs:610-728 | one selection costs at most max_recovery_attempts recoveries and max_replans - 1 + max_recovery_attempts counted replans |
| ExplorerRuns.PlanningEnds | dhruva-nav/src/exploration/explorer.rs:473-585 | the planning budget bounds the number of consecutive updates spent planning |
| ExplorerRuns.MovingNeverRecovers | dhruva-nav/src/exploration/explorer.rs:955-994 | in runs without obstacles ahead, a robot that gets the stuck distance away in every stuck window never goes from navigating into recovery |
| Exploration.Explorer.Update | dhruva-nav/src/exploration/explorer.rs:287-333 | one step of the state machine, which keeps the invariant and takes the next state that the causes named for each state call for |
| Exploration.Explorer.Start | dhruva-nav/src/exploration/explorer.rs:243-274 | a start clears trackers, counts and blacklists, and keeps list, index and path; the invariant holds again |
| Exploration.Explorer.constructor | dhruva-nav/src/exploration/explorer.rs:203-240 | a new explorer is idle and satisfies the invariant |
| Exploration.Explorer.FilterAvailable | dhruva-nav/src/exploration/explorer.rs:347-352 | the filter keeps exactly the frontiers on neither blacklist |
| Exploration.Explorer.CountExhaustion | dhruva-nav/src/exploration/explorer.rs:371-382 | every blacklisted id gets one more cycle, in any order, and the flag says whether one reached three |
| Exploration.Explorer.SelectFrontier | dhruva-nav/src/exploration/explorer.rs:336-470 | the loops add up to the selection step, which lists, escapes, bans or ends exactly as detections, blacklists and counts call for |
| Exploration.Explorer.PlanPath | dhruva-nav/src/exploration/explorer.rs:473-585 | the recursion ends, at the first frontier that is not skipped; the budget strictly shrinks if planning goes on; list, blacklists and retry counters stay |
| Exploration.Explorer.Navigate | dhruva-nav/src/exploration/explorer.rs:588-786 | keeps the invariant; each next status, including recovery and replanning, comes if and only if its cause holds of state and inputs; the frontier list stays, at most one replan counts |
| Exploration.Explorer.EscapeToRetry | dhruva-nav/src/exploration/explorer.rs:872-950 | keeps the invariant; the escape ends exactly near the start or when no path home is left, and then counts and temporary blacklist are wiped |
| Exploration.Explorer.ReturnHome | dhruva-nav/src/exploration/explorer.rs:796-869 | keeps the invariant; finishes exactly near the start or on a completed path, and touches nothing but status and path |
| Exploration.Explorer.ExecuteRecovery | dhruva-nav/src/exploration/explorer.rs:1082-1182 | keeps the invariant; backs up to the backup distance, then turns to the recovery angle; a completed recovery uses an attempt, the last one blacklists the frontier and returns to selection, any other replans |
| NavPath.DouglasPeucker | dhruva-slam/src/navigation/path.rs:225-258 | the recursion ends and returns the points selected by the split rule; what it keeps and drops is stated below |
| NavPath.FindSplit | dhruva-slam/src/navigation/path.rs:234-243 | the scan finds the first point of maximum distance, or none if no point is off the line |
| NavPath.KeptKeepsEnds | dhruva-slam/src/navigation/path.rs:225-258 | the kept points are a subsequence with both ends |
| NavPath.KeptGapsWithin | dhruva-slam/src/navigation/path.rs:206-258 | every dropped point lies within the tolerance of the line through the kept points around it |
| NavGeometry.KeptGapsNear | dhruva-slam/src/navigation/path.rs:206-258 | for a root that squares back, every dropped point has a point of the line through the kept points around it within the tolerance |
| NavGeometry.DistanceToLine | dhruva-slam/src/navigation/path.rs:260-279 | the coded distance is the distance to the line: no point of the line is nearer, and the foot of the perpendicular is as near |
| NavGeometry.ZeroOnLine | dhruva-slam/src/navigation/path.rs:260-279 | it is zero if and only if the three points lie on one line |
| NavGeometry.Translated | dhruva-slam/src/navigation/path.rs:260-279 | it does not change when all three points move together |
| NavGeometry.DistanceIsMetric | dhruva-slam/src/navigation/path.rs:148-165 | the distance between waypoints is a metric |
| NavGeometry.SimplifiedIsShorter | dhruva-slam/src/navigation/path.rs:210-218 | simplifying never makes a path longer |
| NavPath.SplitRecurs | dhruva-slam/src/navigation/path.rs:237-243 | the split point is again the first maximum of the simplified path |
| NavPath.SimplifyIdempotent | dhruva-slam/src/navigation/path.rs:210-258 | simplifying twice changes nothing more |
| NavPath.ToleranceExact | dhruva-slam/src/navigation/path.rs:225-258 | the recursion ends on every path if and only if the tolerance is not negative |
| NavPath.ToleranceEnds | dhruva-slam/src/navigation/path.rs:246-253 | every tolerance that is not negative ends the recursion |
| NavPath.FlatPathLoops | dhruva-slam/src/navigation/path.rs:234-253 | a negative tolerance repeats the same call on a flat path |
| NavPath.StraightPathLoops | dhruva-slam/src/navigation/path.rs:234-253 | three points in a row on which every negative tolerance loops |
| NavPath.NegativeKeepsAll | dhruva-slam/src/navigation/path.rs:225-258 | a recursion that ends for a negative tolerance drops nothing |
| NavPath.LengthSplits | dhruva-slam/src/navigation/path.rs:148-165 | path lengths add up at any waypoint |
| NavPath.Path.PruneUpTo | dhruva-slam/src/navigation/path.rs:171-179 | pruning keeps the rest, whose length is what remained before |
| NavPath.Path.Simplify | dhruva-slam/src/navigation/path.rs:210-218 | simplification in place keeps the stored length right and leaves nothing to simplify |
| NavSafety.EveryRun | dhruva-slam/src/navigation/state.rs:184-410 | after any events: the navigation invariant, targets served in the order pushed, at most max_replan_attempts planner calls per target, less the attempts it inherited, which are none for the first target; and every waypoint below the index was within the threshold at some update since the path was set |
| NavSafety.InheritedExactly | dhruva-slam/src/navigation/state.rs:215-244 | a target starts with a fresh count exactly when it was queued behind another one or the one before it had no replan; otherwise it inherits that count |
| NavSafety.NeverPlanned | dhruva-slam/src/navigation/navigator.rs:229-245 | a run in which a target fails without the planner being asked for it |
| NavSteps.PlanningKeepsInv | dhruva-slam/src/navigation/navigator.rs:229-337 | planning keeps queue and count and ends on a fresh path to the front target, or in failure with the reason, for exactly the causes named |
| NavSteps.NavigatingKeepsInv | dhruva-slam/src/navigation/navigator.rs:340-473 | the exact conditions for completing the target, turning, passing one waypoint and giving up; otherwise the robot steers for the waypoint at the index; no replan is asked for |
| NavSteps.HeadingReachedMeans | dhruva-slam/src/navigation/target.rs:289-297 | the heading is reached if and only if some angle equal to the error, up to whole turns, is within the tolerance |
| NavSteps.UpdateKeepsInv | dhruva-slam/src/navigation/navigator.rs:180-568 | every update keeps the invariant and takes the step of its state; a hazard interrupts navigating and nothing else; without a task nothing happens |
| NavSteps.QueueOperationsKeepInv | dhruva-slam/src/navigation/state.rs:184-259 | pushing, popping, clearing and resetting keep that invariant |
| NavSafety.UpdateAttempts | dhruva-slam/src/navigation/navigator.rs:229-508 | how replan attempts and planner calls for the front target move together; the count never falls |
| NavSteps.WaypointAvailable | dhruva-slam/src/navigation/navigator.rs:370-382 | navigating never lacks a waypoint |
| NavSafety.UpdateMarks | dhruva-slam/src/navigation/state.rs:116-122 | an update that changes queue or path sets the matching dirty flag |
| NavSafety.QueueOperationsMark | dhruva-slam/src/navigation/state.rs:116-122 | so do the queue operations |
| NavSafety.FailedStays | dhruva-slam/src/navigation/navigator.rs:200-204 | neither pushing nor updating leaves the failed state |
| NavSteps.SteerOutcome | dhruva-slam/src/navigation/navigator.rs:571-643 | far off its heading the robot turns on the spot, the shorter way; else it drives towards the waypoint, forwards or backwards, slower near it, and turns in proportion to the error; both speed limits hold |
| Navigation.Navigator.Update | dhruva-slam/src/navigation/navigator.rs:180-226 | an update keeps the invariant when the planner tags its paths, and takes the step of its state, with the command that goes with it |
| Navigation.Navigator.HandlePlanning | dhruva-slam/src/navigation/navigator.rs:229-337 | keeps the invariant, queue and count; ends on a fresh path to the front target exactly when attempts are left, there is a map and the planner finds one, else fails with the reason |
| Navigation.Navigator.HandleNavigating | dhruva-slam/src/navigation/navigator.rs:340-473 | keeps the invariant; completes the front target only on arrival and in its heading, passes a waypoint only within its threshold and one at a time, gives up exactly without progress for the timeout |
| Navigation.Navigator.HandleEscaping | dhruva-slam/src/navigation/navigator.rs:478-508 | keeps the invariant; nothing changes until the escape is over, which counts as one replan |
| Navigation.Navigator.HandleRotating | dhruva-slam/src/navigation/navigator.rs:511-548 | keeps the invariant; completes the front target exactly when its heading is reached, else turns towards it on the spot |
| Navigation.Navigator.CompleteTarget | dhruva-slam/src/navigation/navigator.rs:551-568 | the front target is counted and dropped; the next is planned with a fresh count, or the queue is done and the count stays |
| Navigation.NavigationState.PushTargets | dhruva-slam/src/navigation/state.rs:200-213 | targets are appended in order, and planning begins if there were none |
| Navigation.NavigationState.PopTarget | dhruva-slam/src/navigation/state.rs:221-244 | the front target is returned and counted; the attempts start over if another target follows, else they stay for the next push |
| Navigation.NavigationState.AdvanceWaypoint | dhruva-slam/src/navigation/state.rs:332-341 | the index moves by exactly one, and does so exactly when a waypoint follows |
| OdometryModel.TickDeltaExact | dhruva-nav/src/odometry.rs:60-62 | the wrapped difference is the true displacement if and only if that fits in a signed 16-bit number |
| OdometryModel.DeltasTelescope | dhruva-nav/src/odometry.rs:60-66 | over any run the deltas add up to the true displacement |
| OdometryModel.HeadingIsTrue | dhruva-nav/src/odometry.rs:51-92 | over any run the heading is the start heading plus the turn of the true displacements, up to whole turns, and stays in [-PI, PI] |
| OdometryModel.MovedAlong | dhruva-nav/src/odometry.rs:73-85 | the position moves along the middle heading by the mean of the two wheels, and opposite wheels keep it |
| OdometryModel.StraightRun | dhruva-nav/src/odometry.rs:51-92 | driving straight, however often the counters wrap, ends at the true displacement along the start heading |
| OdometryModel.TurnFormula | dhruva-nav/src/odometry.rs:73-79 | the turn is the difference of wheel displacements over ticks per metre times wheel base |
| OdometryModel.Odometry.Update | dhruva-nav/src/odometry.rs:51-92 | the first reading and a reading without movement keep the pose; any other moves the position along the heading half way through the turn by the mean of the wheels, not at all for opposite wheels, and turns the heading by the difference of the wheels, up to whole turns, into [-PI, PI] |
| Angles.NormalizeAngleByLoops | dhruva-nav/src/utils.rs:7-16 | the loop form ends and agrees with the modulo form on every real |
| Angles.NormalizeAngleNormalizes | dhruva-slam/src/core/math.rs:18-26 | the modulo form is congruent to the angle and lies in [-PI, PI], with the angle's sign at the ends |
| Angles.NormalizedUnique | dhruva-slam/src/core/math.rs:7-26 | there is only one such normal form |
| Angles.NormalizeAngleSmallest | dhruva-slam/src/core/math.rs:18-26 | no angle equal to it up to whole turns is closer to zero |

## Left out

- Float rounding, NaN, i32 overflow of coordinates and error terms, and SIMD hardware semantics: the models are exact.
- Values of square roots and trigonometric functions, so no claim depends on the Euclidean shape of `norm`.
- Clearance from the outside of the map: only cells of the grid seed the distance field, so there is nothing to prove.
- Optimality of Theta* and symmetry of line of sight: the code gives neither (`LineQueries.DirectionMatters`).
- `FrontierDetector::detect` beyond its cells and clusters (scores, sorting, truncation, navigation targets): the explorer
  takes its output as an arbitrary list.
- `find_closest_waypoint`, path progress and other read-only queries: neither state machine asks them.
- The A* planner of `dhruva-slam`: it answers through the navigator's `plan` input, assumed to return nonempty paths under
  the id it was given.
- `dhruva-slam/src/exploration/frontier.rs`, SLAM, scan matching, drivers, sockets, threads, logging, configuration and
  storage.
- OdometryModel.Odometry.Update: once a wheel has moved, requires a nonzero wheel base and tick ratio. With a zero one the
  program's turn is an infinity, on which the loop of `normalize_angle` never ends, or NaN; there is no pose to speak of.

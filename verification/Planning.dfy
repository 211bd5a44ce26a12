/** From poses to waypoints, and the end-to-end guarantee: planned legs keep the robot radius from every obstacle. */
module Planning {
  import opened Grids
  import opened Brushfire
  import opened CostLayers
  import opened Bresenham
  import opened CostMaps
  import opened LineQueries
  import opened NearestCells
  import opened SearchTree
  import opened ThetaStar

  datatype PlannedPath = PlannedPath(waypoints: seq<Point>, length: real)

  function SegmentLength(norm: (real, real) -> real, a: Point, b: Point): real {
    norm(b.x - a.x, b.y - a.y)
  }

  /** Sum of the straight segments of a polyline. */
  function PolylineLength(norm: (real, real) -> real, points: seq<Point>): real {
    if |points| < 2 then 0.0
    else PolylineLength(norm, points[..|points| - 1]) + SegmentLength(norm, points[|points| - 2], points[|points| - 1])
  }

  method ComputePathLength(norm: (real, real) -> real, waypoints: seq<Point>) returns (length: real)
    ensures length == PolylineLength(norm, waypoints)
  {
    if |waypoints| < 2 {
      return 0.0;
    }
    length := 0.0;
    for i := 0 to |waypoints| - 1
      invariant length == PolylineLength(norm, waypoints[..i + 1])
    {
      assert waypoints[..i + 2][..i + 1] == waypoints[..i + 1];
      length := length + SegmentLength(norm, waypoints[i], waypoints[i + 1]);
    }
    assert waypoints[..|waypoints|] == waypoints;
  }

  /** Every leg between consecutive waypoints runs over traversable cells only. */
  ghost predicate LegsClear(m: CostMap, waypoints: seq<Point>) {
    forall i :: 0 < i < |waypoints| ==> LineClear(m, WorldToGrid(m, waypoints[i - 1]), WorldToGrid(m, waypoints[i]))
  }

  /** Every waypoint is the centre of its cell, and no cell comes twice. */
  ghost predicate CentresOnce(m: CostMap, waypoints: seq<Point>) {
    && (forall i :: 0 <= i < |waypoints| ==> waypoints[i] == GridToWorld(m, WorldToGrid(m, waypoints[i])))
    && (forall i, j :: 0 <= i < j < |waypoints| ==> WorldToGrid(m, waypoints[i]) != WorldToGrid(m, waypoints[j]))
  }

  function Centres(m: CostMap, cells: seq<Coord>): seq<Point> {
    seq(|cells|, i requires 0 <= i < |cells| => GridToWorld(m, cells[i]))
  }

  /** The waypoints are the centres of a path of the tree grown by the search; see `Search`. */
  ghost predicate Grown(p: Planner, m: CostMap, start: Coord, goal: Coord, t: Tree, waypoints: seq<Point>) {
    && Rooted(p, m, start, t) && Tight(p, m, t, None, 0)
    && exists cells :: cells != [] && EndsLowest(p, m, start, goal, t, cells) && waypoints == Centres(m, cells)
  }

  /** Scaling an offset scales its length. */
  ghost predicate Homogeneous(norm: (real, real) -> real) {
    forall k, x, y :: k >= 0.0 ==> Scales(norm, k, x, y)
  }

  ghost predicate Scales(norm: (real, real) -> real, k: real, x: real, y: real) {
    norm(k * x, k * y) == k * norm(x, y)
  }

  /** The length of a plan in metres is that of its cells times the width of a cell. */
  lemma {:induction false} CentresLength(p: Planner, m: CostMap, cells: seq<Coord>)
    requires Homogeneous(p.norm)
    ensures PolylineLength(p.norm, Centres(m, cells)) == m.resolution * PathLength(p, cells)
    decreases |cells|
  {
    hide GridToWorld, SegmentLength, EdgeLength, Homogeneous;
    if |cells| >= 2 {
      var n := |cells|;
      CentresLength(p, m, cells[..n - 1]);
      assert Centres(m, cells)[..n - 1] == Centres(m, cells[..n - 1]);
      CentreLeg(p, m, cells[n - 2], cells[n - 1]);
      ScaledSum(m.resolution, PathLength(p, cells[..n - 1]), EdgeLength(p, cells[n - 2], cells[n - 1]));
    }
  }

  lemma ScaledSum(r: real, a: real, b: real)
    ensures r * (a + b) == r * a + r * b && r * 0.0 == 0.0
  {
  }

  lemma CentreLeg(p: Planner, m: CostMap, a: Coord, b: Coord)
    requires Homogeneous(p.norm)
    ensures SegmentLength(p.norm, GridToWorld(m, a), GridToWorld(m, b)) == m.resolution * EdgeLength(p, a, b)
  {
    var u, v := GridToWorld(m, a), GridToWorld(m, b);
    CentreOffset(m.origin.x, a.x, b.x, m.resolution, u.x, v.x);
    CentreOffset(m.origin.y, a.y, b.y, m.resolution, u.y, v.y);
    ScaledOffset(p.norm, m.resolution, (b.x - a.x) as real, (b.y - a.y) as real, v.x - u.x, v.y - u.y);
  }

  lemma ScaledOffset(norm: (real, real) -> real, k: real, x: real, y: real, kx: real, ky: real)
    requires Homogeneous(norm) && k >= 0.0 && kx == k * x && ky == k * y
    ensures norm(kx, ky) == k * norm(x, y)
  {
    assert Scales(norm, k, x, y);
  }

  lemma CentreOffset(origin: real, i: int, j: int, r: real, u: real, v: real)
    requires u == origin + (i as real + 0.5) * r && v == origin + (j as real + 0.5) * r
    ensures v - u == r * (j - i) as real
  {
  }

  /** Where the planner starts from: the robot's cell, or a nearest traversable one within ten cells. */
  ghost predicate StartsFrom(m: CostMap, start: Pose, from: Option<Coord>) {
    IsNearest(m, WorldToGrid(m, start.At()), 10, from)
  }

  /**
   `from` is the cell the search started in. The waypoints are cell centres, from that cell to one within the goal
   tolerance. With an iteration cap of 8 * width * height + 1 or more, `None` has only three causes: nothing to start
   from, a blocked goal, or no chain of traversable cells between them. `t` is the tree the search has grown.
   */
  method Plan(p: Planner, m: CostMap, start: Pose, goal: Point)
    returns (r: Option<PlannedPath>, ghost from: Option<Coord>, ghost t: Tree)
    ensures StartsFrom(m, start, from)
    ensures r.Some? ==> from.Some? && r.value.waypoints != [] && LegsClear(m, r.value.waypoints)
    ensures r.Some? ==> CentresOnce(m, r.value.waypoints)
    ensures r.Some? ==> Grown(p, m, from.value, WorldToGrid(m, goal), t, r.value.waypoints)
    ensures r.Some? ==> r.value.waypoints[0] == GridToWorld(m, from.value)
    ensures r.Some? ==> Manhattan(WorldToGrid(m, Last(r.value.waypoints)), WorldToGrid(m, goal)) <= p.goalTolerance
    ensures r.Some? ==> r.value.length == PolylineLength(p.norm, r.value.waypoints)
    ensures r.Some? ==> Traversable(m, WorldToGrid(m, goal)) && GoalReachable(p, m, from.value, WorldToGrid(m, goal))
    ensures r.None? && p.maxIterations >= 8 * (m.width * m.height) + 1 ==>
      from.None? || !Traversable(m, WorldToGrid(m, goal)) || !GoalReachable(p, m, from.value, WorldToGrid(m, goal))
  {
    hide Traversable, GoalReachable, WorldToGrid, GridToWorld, LineClear, Rooted, Tight, EndsLowest;
    t := Tree(map[], map[], {}, map[]);
    var startCoord := WorldToGrid(m, start.At());
    var goalCoord := WorldToGrid(m, goal);
    var actualStart := startCoord;
    if !Traversable(m, startCoord) {
      var nearest := FindNearestTraversable(m, startCoord, 10);
      from := nearest;
      if nearest.None? {
        return None, from, t;
      }
      actualStart := nearest.value;
    } else {
      from := Some(startCoord);
      SelfIsNearest(m, startCoord, 10);
    }
    if !Traversable(m, goalCoord) {
      return None, from, t;
    }
    ghost var pops;
    var cells;
    cells, pops, t := Search(p, m, actualStart, goalCoord);
    if cells.None? {
      return None, from, t;
    }
    var waypoints := Centres(m, cells.value);
    CentresKeepLegs(m, cells.value, waypoints);
    var length := ComputePathLength(p.norm, waypoints);
    return Some(PlannedPath(waypoints, length)), from, t;
  }

  lemma SelfIsNearest(m: CostMap, c: Coord, radius: nat)
    requires Traversable(m, c)
    ensures IsNearest(m, c, radius, Some(c))
  {
    hide Traversable;
  }

  lemma CentresKeepLegs(m: CostMap, cells: seq<Coord>, waypoints: seq<Point>)
    requires ClearPath(m, cells) && |waypoints| == |cells|
    requires forall i :: 0 <= i < |cells| ==> waypoints[i] == GridToWorld(m, cells[i])
    ensures LegsClear(m, waypoints) && CentresOnce(m, waypoints)
    ensures WorldToGrid(m, Last(waypoints)) == Last(cells)
  {
    hide GridToWorld, WorldToGrid, LineClear;
    forall i | 0 <= i < |cells|
      ensures WorldToGrid(m, waypoints[i]) == cells[i]
    {
      WorldRoundTrip(m, cells[i]);
    }
  }

  // ----- clearance -----

  /** A traversable cell is farther than the robot radius from every lethal cell of the grid. */
  lemma CellClearance(m: CostMap, g: Grid, robotRadius: nat, safetyMargin: nat, wallPenalty: nat, c: Coord, l: Coord)
    requires BuiltFrom(m, g, robotRadius, safetyMargin, wallPenalty) && Traversable(m, c) && Lethal(g, l)
    ensures Octile(l, c) > 1000 * robotRadius
  {
    hide Octile, CellCost;
    assert InGrid(g.width, g.height, c);
    assert l in LethalCells(g) by {
      assert l == Coord(l.x, l.y);
    }
    var d := ObstacleDistance(m, c);
    assert Nearest(LethalCells(g), c, d);
    assert d.Finite? && d.milli <= Octile(l, c);
    TraversableThreshold(d.milli, robotRadius, robotRadius + safetyMargin, wallPenalty);
  }

  /** Squared distance between two cell centres, in square metres. */
  function CentreDistance2(m: CostMap, a: Coord, b: Coord): real {
    var p, q := GridToWorld(m, a), GridToWorld(m, b);
    (p.x - q.x) * (p.x - q.x) + (p.y - q.y) * (p.y - q.y)
  }

  lemma CentreDistanceScales(m: CostMap, a: Coord, b: Coord)
    ensures CentreDistance2(m, a, b) == Euclid2(a, b) as real * (m.resolution * m.resolution)
  {
    var p, q := GridToWorld(m, a), GridToWorld(m, b);
    AxisScales(p.x - q.x, a.x - b.x, m.resolution);
    AxisScales(p.y - q.y, a.y - b.y, m.resolution);
  }

  lemma AxisScales(d: real, i: int, r: real)
    requires d == i as real * r
    ensures d * d == (i * i) as real * (r * r)
  {
    assert (i * i) as real == i as real * i as real;
  }

  /** Octile clearance beyond n cells is Euclidean clearance beyond n / 1.0823 cells. */
  lemma OctileClearance(a: Coord, b: Coord, n: nat)
    requires Octile(a, b) > 1000 * n
    ensures 1171396 * Euclid2(a, b) > 1000000 * (n * n)
  {
    hide Octile, Euclid2;
    OctileVersusEuclid(a, b);
    SquareGrows(1000 * n, Octile(a, b));
    assert (1000 * n) * (1000 * n) == 1000000 * (n * n);
  }

  lemma SquareGrows(a: nat, b: nat)
    requires a < b
    ensures a * a < b * b
  {
    assert b * b - a * a == (b - a) * (b + a);
  }

  /** Rounding up to whole cells never loses radius. */
  lemma CeilCellsCovers(metres: real, resolution: real)
    requires resolution > 0.0
    ensures CeilCells(metres, resolution) as real * resolution >= metres
  {
    var q, n := metres / resolution, CeilCells(metres, resolution) as real;
    assert q * resolution == metres;
    assert n >= q;
    assert (n - q) * resolution >= 0.0;
  }

  /**
   In metres: D, the distance between the centres of a traversable and a lethal cell, satisfies
   1.171396 * D^2 > radius^2.
   */
  lemma MetricClearance(m: CostMap, g: Grid, radius: real, safetyMargin: nat, wallPenalty: nat, c: Coord, l: Coord)
    requires radius >= 0.0 && BuiltFrom(m, g, CeilCells(radius, m.resolution), safetyMargin, wallPenalty)
    requires Traversable(m, c) && Lethal(g, l)
    ensures 1.171396 * CentreDistance2(m, l, c) > radius * radius
  {
    hide Octile, Euclid2, Traversable, BuiltFrom, CeilCells, CentreDistance2, Lethal;
    var n := CeilCells(radius, m.resolution);
    CellClearance(m, g, n, safetyMargin, wallPenalty, c, l);
    OctileClearance(l, c, n);
    CentreDistanceScales(m, l, c);
    CeilCellsCovers(radius, m.resolution);
    SquareToReal(n);
    ScaleClearance(Euclid2(l, c) as real, n as real, m.resolution, radius);
  }

  lemma SquareToReal(n: int)
    ensures (n * n) as real == n as real * n as real
  {
  }

  /** From cells to metres: e square cells beat n^2, one cell is r metres wide and n cells cover the radius. */
  lemma ScaleClearance(e: real, n: real, r: real, radius: real)
    requires r > 0.0 && 0.0 <= radius <= n * r && 1.171396 * e > n * n
    ensures 1.171396 * (e * (r * r)) > radius * radius
  {
    var s := n * r;
    var radius2, s2 := SquareMonotone(radius, s);
    var far, near := ScaleExcess(e, n * n, r);
    assert s2 == near;
  }

  lemma SquareMonotone(a: real, b: real) returns (a2: real, b2: real)
    requires 0.0 <= a <= b
    ensures a2 == a * a && b2 == b * b && a2 <= b2
  {
    a2, b2 := a * a, b * b;
    assert (b - a) * (b + a) >= 0.0;
    assert (b - a) * (b + a) == b2 - a2;
  }

  lemma ScaleExcess(e: real, n2: real, r: real) returns (far: real, near: real)
    requires r > 0.0 && 1.171396 * e > n2
    ensures far == 1.171396 * (e * (r * r)) && near == n2 * (r * r) && far > near
  {
    far, near := 1.171396 * (e * (r * r)), n2 * (r * r);
    var excess := 1.171396 * e - n2;
    PositiveProduct(excess, r);
    PositiveProduct(excess * r, r);
    assert excess * r * r == far - near;
  }

  lemma PositiveProduct(a: real, b: real)
    requires a > 0.0 && b > 0.0
    ensures a * b > 0.0
  {
  }

  /** `c` lies farther than the radius, up to the octile factor, from every lethal cell. */
  ghost predicate KeepsClear(m: CostMap, g: Grid, radius: real, c: Coord) {
    forall l :: Lethal(g, l) ==> 1.171396 * CentreDistance2(m, l, c) > radius * radius
  }

  ghost predicate LegKeepsClear(m: CostMap, g: Grid, radius: real, a: Coord, b: Coord) {
    forall k :: 0 <= k <= Steps(a, b) ==> KeepsClear(m, g, radius, Cell(a, b, k))
  }

  /** What a robot with this radius and margin, in cells, may enter: the grid alone decides, without a cost map. */
  ghost predicate Passable(g: Grid, robotRadius: nat, safetyMargin: nat, c: Coord) {
    && InGrid(g.width, g.height, c)
    && forall l :: Lethal(g, l) ==>
         Octile(l, c) > 1000 * robotRadius && 204 * (Octile(l, c) - 1000 * robotRadius) >= 1000 * safetyMargin
  }

  lemma TraversableIsPassable(m: CostMap, g: Grid, robotRadius: nat, safetyMargin: nat, wallPenalty: nat, c: Coord)
    requires BuiltFrom(m, g, robotRadius, safetyMargin, wallPenalty)
    ensures Traversable(m, c) <==> Passable(g, robotRadius, safetyMargin, c)
  {
    hide Octile, CellCost, Lethal;
    if InGrid(g.width, g.height, c) {
      var d := ObstacleDistance(m, c);
      assert Nearest(LethalCells(g), c, d);
      forall l | Lethal(g, l)
        ensures l in LethalCells(g)
      {
        LethalIsListed(g, l);
      }
      if Lethal(g, c) {
        OctileToSelf(c);
      } else if d.Finite? {
        TraversableThreshold(d.milli, robotRadius, robotRadius + safetyMargin, wallPenalty);
      } else {
        FarIsFree(robotRadius, robotRadius + safetyMargin, wallPenalty);
      }
    }
  }

  lemma LethalIsListed(g: Grid, l: Coord)
    ensures Lethal(g, l) <==> l in LethalCells(g)
  {
    assert l == Coord(l.x, l.y);
  }

  lemma OctileToSelf(c: Coord)
    ensures Octile(c, c) == 0
  {
  }

  lemma FarIsFree(inscribed: nat, inflation: nat, penalty: nat)
    ensures CellCost(Infinite, inscribed, inflation, penalty) == FREE
  {
  }

  /** The passable cells of a grid. */
  ghost function PassableCells(g: Grid, robotRadius: nat, safetyMargin: nat): set<Coord> {
    set x, y | 0 <= x < g.width && 0 <= y < g.height && Passable(g, robotRadius, safetyMargin, Coord(x, y))
      :: Coord(x, y)
  }

  lemma TraversableCellsArePassable(m: CostMap, g: Grid, robotRadius: nat, safetyMargin: nat, wallPenalty: nat)
    requires BuiltFrom(m, g, robotRadius, safetyMargin, wallPenalty)
    ensures TraversableCells(m) == PassableCells(g, robotRadius, safetyMargin)
  {
    hide Traversable, Passable, BuiltFrom;
    forall c
      ensures c in TraversableCells(m) <==> c in PassableCells(g, robotRadius, safetyMargin)
    {
      TraversableIsPassable(m, g, robotRadius, safetyMargin, wallPenalty, c);
      PassableIsListed(g, robotRadius, safetyMargin, c);
    }
  }

  lemma PassableIsListed(g: Grid, robotRadius: nat, safetyMargin: nat, c: Coord)
    ensures Passable(g, robotRadius, safetyMargin, c) <==> c in PassableCells(g, robotRadius, safetyMargin)
  {
    hide Lethal, Octile;
    assert c == Coord(c.x, c.y);
  }

  /** Extra inflation of the explorer's cost map, in metres. */
  const MARGIN := 0.10

  ghost predicate LegsKeepClear(m: CostMap, g: Grid, radius: real, waypoints: seq<Point>) {
    forall i :: 0 < i < |waypoints| ==>
      LegKeepsClear(m, g, radius, WorldToGrid(m, waypoints[i - 1]), WorldToGrid(m, waypoints[i]))
  }

  /** A leg that is clear on the cost map of a grid keeps clear of all that is lethal on the grid. */
  lemma LineOnMapKeepsClear(m: CostMap, g: Grid, radius: real, safetyMargin: nat, wallPenalty: nat, a: Coord, b: Coord)
    requires BuiltFrom(m, g, CeilCells(radius, g.resolution), safetyMargin, wallPenalty) && LineClear(m, a, b)
    ensures LegKeepsClear(m, g, MaxReal(radius, 0.0), a, b)
  {
    hide KeepsClear, Cell, Steps, Traversable, CeilCells, BuiltFrom;
    NegativeRadius(radius, g.resolution);
    forall k | 0 <= k <= Steps(a, b)
      ensures KeepsClear(m, g, MaxReal(radius, 0.0), Cell(a, b, k))
    {
      TraversableKeepsClear(m, g, MaxReal(radius, 0.0), safetyMargin, wallPenalty, Cell(a, b, k));
    }
  }

  lemma LegsOnMapKeepClear(m: CostMap, g: Grid, radius: real, safetyMargin: nat, wallPenalty: nat,
                           waypoints: seq<Point>)
    requires BuiltFrom(m, g, CeilCells(radius, g.resolution), safetyMargin, wallPenalty) && LegsClear(m, waypoints)
    ensures LegsKeepClear(m, g, MaxReal(radius, 0.0), waypoints)
  {
    hide LineClear, LegKeepsClear, CeilCells, BuiltFrom, WorldToGrid;
    forall i | 0 < i < |waypoints|
      ensures LegKeepsClear(m, g, MaxReal(radius, 0.0), WorldToGrid(m, waypoints[i - 1]), WorldToGrid(m, waypoints[i]))
    {
      LineOnMapKeepsClear(m, g, radius, safetyMargin, wallPenalty, WorldToGrid(m, waypoints[i - 1]),
        WorldToGrid(m, waypoints[i]));
    }
  }

  /**
   One planning step of the explorer: build the cost map of the current grid with the planning radius, then plan on
   it. Every cell crossed by every leg of the result keeps clear of every obstacle and unknown cell of the grid. With
   a large enough cap, `None` means that no passable cell is near the start, the goal is not passable, or no chain of
   passable cells joins the two; which cells are passable depends on the grid and the radii only.
   */
  method PlanOnGrid(p: Planner, g: Grid, planningRadius: real, wallPenaltyDist: real, start: Pose, goal: Point)
    returns (r: Option<PlannedPath>, ghost m: CostMap, ghost from: Option<Coord>)
    ensures BuiltFrom(m, g, CeilCells(planningRadius, g.resolution), CeilCells(MARGIN, g.resolution),
                      CeilCells(wallPenaltyDist, g.resolution))
    ensures StartsFrom(m, start, from)
    ensures r.Some? ==> from.Some? && r.value.waypoints != []
    ensures r.Some? ==> LegsClear(m, r.value.waypoints) && CentresOnce(m, r.value.waypoints)
    ensures r.Some? ==> LegsKeepClear(m, g, MaxReal(planningRadius, 0.0), r.value.waypoints)
    ensures r.Some? ==> r.value.waypoints[0] == GridToWorld(m, from.value)
    ensures r.Some? ==> Manhattan(WorldToGrid(m, Last(r.value.waypoints)), WorldToGrid(m, goal)) <= p.goalTolerance
    ensures var cells := PassableCells(g, CeilCells(planningRadius, g.resolution), CeilCells(MARGIN, g.resolution));
      var target := WorldToGrid(m, goal);
      && (r.Some? ==> target in cells && RegionReachable(cells, from.value, target, p.goalTolerance))
      && (r.None? && p.maxIterations >= 8 * (g.width * g.height) + 1 ==>
            from.None? || target !in cells || !RegionReachable(cells, from.value, target, p.goalTolerance))
  {
    hide KeepsClear, Cell, WorldToGrid, GridToWorld, Steps, Traversable, CeilCells, LineClear, RegionReachable;
    var costMap := FromGrid(g, planningRadius, MARGIN, wallPenaltyDist);
    m := costMap;
    ghost var t;
    r, from, t := Plan(p, costMap, start, goal);
    ghost var robot, margin := CeilCells(planningRadius, g.resolution), CeilCells(MARGIN, g.resolution);
    ghost var penalty := CeilCells(wallPenaltyDist, g.resolution);
    TraversableCellsArePassable(m, g, robot, margin, penalty);
    if r.Some? {
      LegsOnMapKeepClear(m, g, planningRadius, margin, penalty, r.value.waypoints);
    }
  }

  lemma NegativeRadius(metres: real, resolution: real)
    requires resolution > 0.0
    ensures CeilCells(MaxReal(metres, 0.0), resolution) == CeilCells(metres, resolution)
  {
    if metres < 0.0 {
      assert metres / resolution < 0.0 by {
        assert metres / resolution * resolution == metres;
      }
      assert 0.0 / resolution == 0.0;
    }
  }

  lemma TraversableKeepsClear(m: CostMap, g: Grid, radius: real, safetyMargin: nat, wallPenalty: nat, c: Coord)
    requires radius >= 0.0 && BuiltFrom(m, g, CeilCells(radius, g.resolution), safetyMargin, wallPenalty)
    requires Traversable(m, c)
    ensures KeepsClear(m, g, radius, c)
  {
    hide Traversable, CentreDistance2, Lethal, CeilCells;
    forall l | Lethal(g, l)
      ensures 1.171396 * CentreDistance2(m, l, c) > radius * radius
    {
      MetricClearance(m, g, radius, safetyMargin, wallPenalty, c, l);
    }
  }
}

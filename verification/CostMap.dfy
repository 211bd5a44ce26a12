/** The planner's view of the map: costs, distance field, line-of-sight and nearest-cell queries. */
module CostMaps {
  import opened Grids
  import opened Brushfire
  import opened CostLayers
  import opened Bresenham

  datatype RawCostMap = RawCostMap(
    width: nat, height: nat, resolution: real, origin: Point, costs: seq<u8>, field: seq<Dist>, wallPenaltyCells: nat)

  type CostMap = m: RawCostMap | |m.costs| == |m.field| == m.width * m.height && m.resolution > 0.0
    witness RawCostMap(0, 0, 1.0, Point(0.0, 0.0), [], [], 0)

  // ----- point queries -----

  /** Cells outside the grid are lethal. */
  function Cost(m: CostMap, c: Coord): u8 {
    if InGrid(m.width, m.height, c) then
      IndexInRange(m.width, m.height, c);
      m.costs[Index(m.width, c)]
    else
      LETHAL
  }

  function ObstacleDistance(m: CostMap, c: Coord): Dist {
    if InGrid(m.width, m.height, c) then At(m.field, m.width, m.height, c) else Finite(0)
  }

  predicate Traversable(m: CostMap, c: Coord) {
    Cost(m, c) < INSCRIBED
  }

  function WorldToGrid(m: CostMap, p: Point): Coord {
    Coord(((p.x - m.origin.x) / m.resolution).Floor, ((p.y - m.origin.y) / m.resolution).Floor)
  }

  /** The centre of a cell. */
  function GridToWorld(m: CostMap, c: Coord): Point {
    Point(m.origin.x + (c.x as real + 0.5) * m.resolution, m.origin.y + (c.y as real + 0.5) * m.resolution)
  }

  lemma WorldRoundTrip(m: CostMap, c: Coord)
    ensures WorldToGrid(m, GridToWorld(m, c)) == c
  {
    CentreFloor(m.origin.x, c.x, m.resolution, GridToWorld(m, c).x);
    CentreFloor(m.origin.y, c.y, m.resolution, GridToWorld(m, c).y);
  }

  lemma CentreFloor(origin: real, i: int, resolution: real, centre: real)
    requires resolution > 0.0 && centre == origin + (i as real + 0.5) * resolution
    ensures ((centre - origin) / resolution).Floor == i
  {
    var q := (centre - origin) / resolution;
    assert q * resolution == centre - origin;
    SameProduct(q, i as real + 0.5, resolution);
  }

  lemma SameProduct(a: real, b: real, c: real)
    requires c > 0.0 && a * c == b * c
    ensures a == b
  {
    assert (a - b) * c == 0.0;
  }

  // ----- construction -----

  /** The cells that seed the distance field. */
  ghost function LethalCells(g: Grid): set<Coord> {
    set x, y | 0 <= x < g.width && 0 <= y < g.height && Lethal(g, Coord(x, y)) :: Coord(x, y)
  }

  /** Metres to whole cells, rounded up; negative lengths become zero. */
  function CeilCells(metres: real, resolution: real): nat
    requires resolution > 0.0
  {
    var cells := -(-(metres / resolution)).Floor;
    if cells < 0 then 0 else cells
  }

  /** What a cost map says about the grid it was made from, with its three radii in cells. */
  ghost predicate BuiltFrom(m: CostMap, g: Grid, robotRadius: nat, safetyMargin: nat, wallPenalty: nat) {
    && m.width == g.width && m.height == g.height && m.resolution == g.resolution && m.origin == g.origin
    && m.wallPenaltyCells == wallPenalty
    && forall c :: InGrid(g.width, g.height, c) ==>
         && Nearest(LethalCells(g), c, ObstacleDistance(m, c))
         && Cost(m, c) == if Lethal(g, c) then LETHAL
                          else CellCost(ObstacleDistance(m, c), robotRadius, robotRadius + safetyMargin, wallPenalty)
  }

  /** State of the marking pass once the first `done` cells, in storage order, have been looked at. */
  ghost predicate Marked(costs: seq<u8>, field: seq<Dist>, queue: seq<Coord>, g: Grid, done: int)
    requires |costs| == |field| == g.width * g.height
  {
    && (forall c :: c in queue ==> Lethal(g, c) && Index(g.width, c) < done)
    && (forall c :: InGrid(g.width, g.height, c) ==> MarkedCell(costs, field, queue, g, done, c))
  }

  ghost predicate MarkedCell(costs: seq<u8>, field: seq<Dist>, queue: seq<Coord>, g: Grid, done: int, c: Coord)
    requires |costs| == |field| == g.width * g.height
    requires InGrid(g.width, g.height, c)
  {
    IndexInRange(g.width, g.height, c);
    if Lethal(g, c) && Index(g.width, c) < done then
      costs[Index(g.width, c)] == LETHAL && field[Index(g.width, c)] == Finite(0) && c in queue
    else
      costs[Index(g.width, c)] == FREE && field[Index(g.width, c)] == Infinite
  }

  method MarkCell(costs: array<u8>, field: array<Dist>, g: Grid, c: Coord, waiting: seq<Coord>)
    returns (queue: seq<Coord>)
    requires costs.Length == field.Length == g.width * g.height
    requires InGrid(g.width, g.height, c) && Marked(costs[..], field[..], waiting, g, Index(g.width, c))
    modifies costs, field
    ensures Marked(costs[..], field[..], queue, g, Index(g.width, c) + 1)
  {
    queue := waiting;
    IndexInRange(g.width, g.height, c);
    var i := Index(g.width, c);
    var cellType := GetType(g, c);
    if cellType.IsObstacle() || cellType == Unknown {
      costs[i] := LETHAL;
      field[i] := Finite(0);
      queue := queue + [c];
    }
    forall b | InGrid(g.width, g.height, b)
      ensures MarkedCell(costs[..], field[..], queue, g, i + 1, b)
    {
      IndexInRange(g.width, g.height, b);
      IndexInjective(g.width, b, c);
      assert old(MarkedCell(costs[..], field[..], waiting, g, i, b));
    }
  }

  /** Build the cost map of an occupancy grid; radii are in metres. */
  method FromGrid(g: Grid, robotRadius: real, safetyMargin: real, wallPenaltyDist: real) returns (m: CostMap)
    ensures BuiltFrom(m, g, CeilCells(robotRadius, g.resolution), CeilCells(safetyMargin, g.resolution),
                      CeilCells(wallPenaltyDist, g.resolution))
  {
    var robotCells := CeilCells(robotRadius, g.resolution);
    var marginCells := CeilCells(safetyMargin, g.resolution);
    var penaltyCells := CeilCells(wallPenaltyDist, g.resolution);
    var total := g.width * g.height;
    var costs := new u8[total](_ => FREE);
    var field := new Dist[total](_ => Infinite);
    var queue := MarkObstacles(costs, field, g);
    ghost var marks := costs[..];
    SeedsAreLethal(marks, field[..], queue, g);
    ComputeDistanceField(field, g.width, g.height, queue);
    ApplyCostLayers(costs, field, robotCells, marginCells, penaltyCells);
    m := RawCostMap(g.width, g.height, g.resolution, g.origin, costs[..], field[..], penaltyCells);
    FinishedMap(m, g, marks, robotCells, marginCells);
  }

  lemma FinishedMap(m: CostMap, g: Grid, marks: seq<u8>, robotRadius: nat, safetyMargin: nat)
    requires m.width == g.width && m.height == g.height && m.resolution == g.resolution && m.origin == g.origin
    requires |marks| == g.width * g.height
    requires forall c :: InGrid(g.width, g.height, c) ==>
      && Nearest(LethalCells(g), c, At(m.field, g.width, g.height, c))
      && 0 <= Index(g.width, c) < |marks| && (marks[Index(g.width, c)] == LETHAL <==> Lethal(g, c))
    requires forall i :: 0 <= i < |marks| ==>
      m.costs[i] == Layered(marks[i], m.field[i], robotRadius, robotRadius + safetyMargin, m.wallPenaltyCells)
    ensures BuiltFrom(m, g, robotRadius, safetyMargin, m.wallPenaltyCells)
  {
    forall c | InGrid(g.width, g.height, c)
      ensures Cost(m, c) == if Lethal(g, c) then LETHAL
                            else CellCost(ObstacleDistance(m, c), robotRadius, robotRadius + safetyMargin,
                                          m.wallPenaltyCells)
    {
      var i := Index(g.width, c);
      assert m.costs[i] == Layered(marks[i], m.field[i], robotRadius, robotRadius + safetyMargin, m.wallPenaltyCells);
    }
  }

  /** The first pass: lethal cells get the lethal cost, distance zero and a place in the queue. */
  method MarkObstacles(costs: array<u8>, field: array<Dist>, g: Grid) returns (queue: seq<Coord>)
    requires costs.Length == field.Length == g.width * g.height
    requires forall i :: 0 <= i < costs.Length ==> costs[i] == FREE && field[i] == Infinite
    modifies costs, field
    ensures Marked(costs[..], field[..], queue, g, g.width * g.height)
  {
    queue := [];
    RowsIsProduct(g.width, g.height);
    forall c | InGrid(g.width, g.height, c)
      ensures MarkedCell(costs[..], field[..], queue, g, 0, c)
    {
      IndexInRange(g.width, g.height, c);
    }
    for y := 0 to g.height
      invariant Marked(costs[..], field[..], queue, g, Rows(g.width, y))
    {
      for x := 0 to g.width
        invariant Marked(costs[..], field[..], queue, g, Rows(g.width, y) + x)
      {
        queue := MarkCell(costs, field, g, Coord(x, y), queue);
      }
    }
  }

  lemma SeedsAreLethal(costs: seq<u8>, field: seq<Dist>, queue: seq<Coord>, g: Grid)
    requires |costs| == |field| == g.width * g.height
    requires Marked(costs, field, queue, g, g.width * g.height)
    ensures (set c | c in queue) == LethalCells(g)
    ensures forall c :: InGrid(g.width, g.height, c) ==>
      At(field, g.width, g.height, c) == if c in queue then Finite(0) else Infinite
    ensures forall c :: InGrid(g.width, g.height, c) ==>
      0 <= Index(g.width, c) < |costs| && (costs[Index(g.width, c)] == LETHAL <==> Lethal(g, c))
    ensures forall i :: 0 <= i < |costs| ==> costs[i] == FREE || costs[i] == LETHAL
  {
    forall c | InGrid(g.width, g.height, c)
      ensures 0 <= Index(g.width, c) < g.width * g.height
      ensures MarkedCell(costs, field, queue, g, g.width * g.height, c)
    {
      IndexInRange(g.width, g.height, c);
    }
    forall i | 0 <= i < |costs|
      ensures costs[i] == FREE || costs[i] == LETHAL
    {
      PositionInGrid(g.width, g.height, i);
      assert MarkedCell(costs, field, queue, g, g.width * g.height, Position(g.width, i));
    }
    forall c
      ensures c in queue <==> c in LethalCells(g)
    {
      if Lethal(g, c) {
        assert MarkedCell(costs, field, queue, g, g.width * g.height, c);
        assert c == Coord(c.x, c.y);
      }
    }
  }
}

/** Paths over the cost map and the parent tree that Theta* grows. */
module SearchTree {
  import opened Chains
  import opened Grids
  import opened Bresenham
  import opened CostLayers
  import opened CostMaps
  import opened LineQueries

  /**
   Planner parameters. `norm` is the Euclidean length of an offset (the program's square root); only its sign
   is ever used, so every statement below holds for any non-negative function.
   */
  datatype Planner = Planner(maxIterations: nat, wallPenaltyWeight: real, goalTolerance: int,
                             norm: (real, real) -> real)

  ghost predicate IsNorm(norm: (real, real) -> real) {
    forall x, y :: norm(x, y) >= 0.0
  }

  function EdgeLength(p: Planner, a: Coord, b: Coord): real {
    p.norm((b.x - a.x) as real, (b.y - a.y) as real)
  }

  function EdgeCost(p: Planner, m: CostMap, a: Coord, b: Coord): real {
    EdgeLength(p, a, b) + p.wallPenaltyWeight * WallPenalty(m, a, b) * EdgeLength(p, a, b)
  }

  function Last<T>(s: seq<T>): T
    requires s != []
  {
    s[|s| - 1]
  }

  function PathLength(p: Planner, path: seq<Coord>): real {
    if |path| < 2 then 0.0
    else PathLength(p, path[..|path| - 1]) + EdgeLength(p, path[|path| - 2], path[|path| - 1])
  }

  function PathCost(p: Planner, m: CostMap, path: seq<Coord>): real {
    if |path| < 2 then 0.0
    else PathCost(p, m, path[..|path| - 1]) + EdgeCost(p, m, path[|path| - 2], path[|path| - 1])
  }

  /** The cost of a path lies between its length and (1 + weight) times its length. */
  lemma {:induction false} CostBounds(p: Planner, m: CostMap, path: seq<Coord>)
    requires IsNorm(p.norm) && p.wallPenaltyWeight >= 0.0
    ensures PathLength(p, path) <= PathCost(p, m, path) <= (1.0 + p.wallPenaltyWeight) * PathLength(p, path)
  {
    hide EdgeLength, EdgeCost;
    if |path| >= 2 {
      CostBounds(p, m, path[..|path| - 1]);
      EdgeCostBounds(p, m, path[|path| - 2], path[|path| - 1]);
      Distribute(1.0 + p.wallPenaltyWeight, PathLength(p, path[..|path| - 1]),
                 EdgeLength(p, path[|path| - 2], path[|path| - 1]));
    }
  }

  lemma EdgeCostBounds(p: Planner, m: CostMap, a: Coord, b: Coord)
    requires IsNorm(p.norm) && p.wallPenaltyWeight >= 0.0
    ensures EdgeLength(p, a, b) <= EdgeCost(p, m, a, b) <= (1.0 + p.wallPenaltyWeight) * EdgeLength(p, a, b)
  {
    var w, penalty, d := p.wallPenaltyWeight, WallPenalty(m, a, b), EdgeLength(p, a, b);
    WallPenaltyBounds(m, a, b);
    WeightBounds(w, penalty, d, w * penalty);
    assert EdgeCost(p, m, a, b) == d + w * penalty * d;
  }

  /** With a positive weight, a leg costs just its length exactly when all its cells keep the penalty distance. */
  lemma EdgeCostIsLength(p: Planner, m: CostMap, a: Coord, b: Coord)
    requires p.wallPenaltyWeight > 0.0 && EdgeLength(p, a, b) > 0.0
    ensures EdgeCost(p, m, a, b) == EdgeLength(p, a, b) <==>
      forall k :: 0 <= k <= Steps(a, b) ==> KeepsDistance(m, Cell(a, b, k))
  {
    hide Cell, CellPenalty, Steps, WallPenalty, EdgeLength;
    WallPenaltyZero(m, a, b);
    forall k | 0 <= k <= Steps(a, b)
      ensures CellPenalty(m, Cell(a, b, k)) == 0.0 <==> KeepsDistance(m, Cell(a, b, k))
    {
      CellPenaltyZero(m, Cell(a, b, k));
    }
    ProductZero(p.wallPenaltyWeight, WallPenalty(m, a, b), EdgeLength(p, a, b));
  }

  lemma ProductZero(w: real, penalty: real, d: real)
    requires w > 0.0 && d > 0.0
    ensures w * penalty * d == 0.0 <==> penalty == 0.0
  {
    if penalty != 0.0 {
      assert w * penalty != 0.0;
      assert w * penalty * d != 0.0;
    }
  }

  /** A leg whose cells all have the same penalty costs (1 + weight * penalty) times its length. */
  lemma EdgeCostUniform(p: Planner, m: CostMap, a: Coord, b: Coord, penalty: real)
    requires forall k :: 0 <= k <= Steps(a, b) ==> CellPenalty(m, Cell(a, b, k)) == penalty
    ensures EdgeCost(p, m, a, b) == (1.0 + p.wallPenaltyWeight * penalty) * EdgeLength(p, a, b)
  {
    hide Cell, CellPenalty, EdgeLength, WallPenalty;
    WallPenaltyUniform(m, a, b, penalty);
    OnePlus(p.wallPenaltyWeight * penalty, EdgeLength(p, a, b));
  }

  lemma OnePlus(e: real, d: real)
    ensures d + e * d == (1.0 + e) * d
  {
  }

  lemma WeightBounds(w: real, penalty: real, d: real, e: real)
    requires w >= 0.0 && 0.0 <= penalty <= 1.0 && d >= 0.0 && e == w * penalty
    ensures 0.0 <= e * d && d + e * d <= (1.0 + w) * d
  {
    ProductNonNegative(w, penalty);
    ProductNonNegative(w, 1.0 - penalty);
    assert w * (1.0 - penalty) == w - e;
    ProductNonNegative(e, d);
    ProductNonNegative(w - e, d);
    assert (w - e) * d == w * d - e * d;
  }

  lemma ProductNonNegative(a: real, b: real)
    requires a >= 0.0 && b >= 0.0
    ensures a * b >= 0.0
  {
  }

  lemma Distribute(w: real, l: real, d: real)
    ensures w * (l + d) == w * l + w * d
  {
  }

  // ----- reachability -----

  ghost function TraversableCells(m: CostMap): (r: set<Coord>)
    ensures forall c :: c in r <==> Traversable(m, c)
  {
    var r := set x, y | 0 <= x < m.width && 0 <= y < m.height && Traversable(m, Coord(x, y)) :: Coord(x, y);
    assert forall c :: Traversable(m, c) ==> c == Coord(c.x, c.y);
    r
  }

  /** A chain of traversable cells under king moves joins the two. */
  ghost predicate Reachable(m: CostMap, a: Coord, b: Coord) {
    Connected(TraversableCells(m), 1, a, b)
  }

  lemma ReachableStep(m: CostMap, a: Coord, b: Coord, c: Coord)
    requires Reachable(m, a, b) && Adjacent(b, c) && Traversable(m, c)
    ensures Reachable(m, a, c)
  {
    hide Connected, Traversable;
    ConnectedLink(TraversableCells(m), 1, a, b, c);
  }

  /** A king-move chain of `cells` leads from `start` to within the tolerance of the goal. */
  ghost predicate RegionReachable(cells: set<Coord>, start: Coord, goal: Coord, tolerance: int) {
    exists c :: Connected(cells, 1, start, c) && Manhattan(c, goal) <= tolerance
  }

  /** The goal region can be reached from `start` over traversable cells. */
  ghost predicate GoalReachable(p: Planner, m: CostMap, start: Coord, goal: Coord) {
    RegionReachable(TraversableCells(m), start, goal, p.goalTolerance)
  }

  // ----- the parent tree -----

  /** The maps of the search. `rank` numbers the closed cells in the order they were closed. */
  datatype Tree = Tree(g: map<Coord, real>, parent: map<Coord, Coord>, closed: set<Coord>, rank: map<Coord, nat>)

  /**
   A leg of the tree: line of sight from a closed parent, a cost-so-far that adds up, and a parent that was closed
   before its child.
   */
  ghost predicate Leg(p: Planner, m: CostMap, t: Tree, c: Coord)
    requires c in t.parent && c in t.g && t.rank.Keys == t.closed
  {
    var q := t.parent[c];
    && q in t.closed && q in t.g
    && LineClear(m, q, c)
    && t.g[c] == t.g[q] + EdgeCost(p, m, q, c)
    && (c in t.closed ==> t.rank[q] < t.rank[c])
  }

  ghost predicate Legs(p: Planner, m: CostMap, start: Coord, t: Tree)
    requires t.g.Keys == t.parent.Keys && t.rank.Keys == t.closed
  {
    forall c {:trigger Leg(p, m, t, c)} :: c in t.parent && c != start ==> Leg(p, m, t, c)
  }

  /** Every cell in the maps is traversable and reachable. */
  ghost predicate Grounded(m: CostMap, start: Coord, t: Tree) {
    && (forall c :: c in t.parent ==> Traversable(m, c))
    && (forall c {:trigger Reachable(m, start, c)} :: c in t.parent ==> Reachable(m, start, c))
  }

  /** The parent map is a tree rooted at `start`. */
  ghost predicate Rooted(p: Planner, m: CostMap, start: Coord, t: Tree) {
    && t.g.Keys == t.parent.Keys && t.closed <= t.parent.Keys && t.rank.Keys == t.closed
    && start in t.parent && t.parent[start] == start && t.g[start] == 0.0
    && (if t.closed == {} then t.parent.Keys == {start} else start in t.closed)
    && (forall c :: c in t.closed ==> t.rank[c] < |t.closed|)
    && Grounded(m, start, t)
    && Legs(p, m, start, t)
  }

  /** Position of a cell in the closing order; open cells come after all closed ones. */
  ghost function Depth(t: Tree, c: Coord): nat
    requires t.rank.Keys == t.closed
  {
    if c in t.closed then t.rank[c] else |t.closed|
  }

  /** The cells from the root to `c`. */
  ghost function TreePath(p: Planner, m: CostMap, start: Coord, t: Tree, c: Coord): seq<Coord>
    requires Rooted(p, m, start, t) && c in t.parent
    decreases Depth(t, c)
  {
    if c == start then [start]
    else
      assert Leg(p, m, t, c);
      TreePath(p, m, start, t, t.parent[c]) + [c]
  }

  /** What the planner promises of the cells it returns. */
  ghost predicate ClearPath(m: CostMap, path: seq<Coord>) {
    && path != []
    && (forall i :: 0 <= i < |path| ==> Traversable(m, path[i]))
    && (forall i, j :: 0 <= i < j < |path| ==> path[i] != path[j])
    && (forall i :: 0 < i < |path| ==> LineClear(m, path[i - 1], path[i]))
  }

  /**
   Walking the parent map back from any cell reaches the root without repeating a cell, over clear legs, and
   the costs along the way add up to the cell's cost-so-far.
   */
  lemma {:induction false} TreePathIsClear(p: Planner, m: CostMap, start: Coord, t: Tree, c: Coord)
    requires Rooted(p, m, start, t) && c in t.parent
    ensures var path := TreePath(p, m, start, t, c);
      ClearPath(m, path) && path[0] == start && Last(path) == c && PathCost(p, m, path) == t.g[c]
    ensures forall x :: x in TreePath(p, m, start, t, c) ==> x == c || (x in t.closed && t.rank[x] < Depth(t, c))
    decreases Depth(t, c)
  {
    hide EdgeCost, LineClear, Reachable, Traversable;
    assert Reachable(m, start, c);
    if c != start {
      assert Leg(p, m, t, c);
      var q := t.parent[c];
      TreePathIsClear(p, m, start, t, q);
      var up := TreePath(p, m, start, t, q);
      var path := up + [c];
      assert path[..|path| - 1] == up;
      assert c !in up;
      AppendClear(m, up, c);
    }
  }

  /** The cost-so-far of a cell lies between the length of its tree path and (1 + weight) times that length. */
  lemma TreeCostBounds(p: Planner, m: CostMap, start: Coord, t: Tree, c: Coord)
    requires Rooted(p, m, start, t) && c in t.parent && IsNorm(p.norm) && p.wallPenaltyWeight >= 0.0
    ensures var length := PathLength(p, TreePath(p, m, start, t, c));
      length <= t.g[c] <= (1.0 + p.wallPenaltyWeight) * length
  {
    hide Legs, Grounded, EdgeCost, EdgeLength, TreePath, PathCost, PathLength, ClearPath;
    TreePathIsClear(p, m, start, t, c);
    CostBounds(p, m, TreePath(p, m, start, t, c));
  }

  lemma AppendClear(m: CostMap, path: seq<Coord>, c: Coord)
    requires ClearPath(m, path) && c !in path && Traversable(m, c) && LineClear(m, Last(path), c)
    ensures ClearPath(m, path + [c])
  {
  }
}

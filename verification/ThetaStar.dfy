/** Theta*: best-first search that connects cells to their grandparent whenever there is line of sight. */
module ThetaStar {
  import opened Chains
  import opened Grids
  import opened CostLayers
  import opened CostMaps
  import opened LineQueries
  import opened NearestCells
  import opened SearchTree

  datatype SearchNode = SearchNode(coord: Coord, fScore: real)

  function Heuristic(p: Planner, from: Coord, to: Coord): real {
    EdgeLength(p, from, to)
  }

  // ----- the open set -----

  ghost predicate Lowest(open: multiset<SearchNode>, n: SearchNode) {
    n in open && forall o :: o in open ==> n.fScore <= o.fScore
  }

  lemma {:induction false} LowestExists(open: multiset<SearchNode>) returns (n: SearchNode)
    requires open != multiset{}
    ensures Lowest(open, n)
  {
    n :| n in open;
    var rest := open - multiset{n};
    assert open == rest + multiset{n};
    if rest != multiset{} {
      var l := LowestExists(rest);
      if l.fScore < n.fScore {
        n := l;
      }
    }
  }

  /** Take a node with the lowest score; ties may go either way. */
  method PopLowest(open: multiset<SearchNode>) returns (node: SearchNode, rest: multiset<SearchNode>)
    requires open != multiset{}
    ensures Lowest(open, node)
    ensures rest == open - multiset{node}
  {
    ghost var l := LowestExists(open);
    node :| node in open && forall o :: o in open ==> node.fScore <= o.fScore;
    rest := open - multiset{node};
  }

  // ----- tree updates -----

  ghost function Close(t: Tree, c: Coord): Tree {
    t.(closed := t.closed + {c}, rank := t.rank[c := |t.closed|])
  }

  ghost function Connect(t: Tree, c: Coord, parent: Coord, cost: real): Tree {
    t.(g := t.g[c := cost], parent := t.parent[c := parent])
  }

  /** A closed cell with line of sight to `c`, and what reaching `c` through it costs. */
  ghost predicate Offer(p: Planner, m: CostMap, t: Tree, c: Coord, parent: Coord, cost: real) {
    && parent in t.closed && parent in t.g && c !in t.closed
    && Traversable(m, c) && LineClear(m, parent, c)
    && cost == t.g[parent] + EdgeCost(p, m, parent, c)
  }

  lemma CloseKeepsRooted(p: Planner, m: CostMap, start: Coord, t: Tree, c: Coord)
    requires Rooted(p, m, start, t) && c in t.parent && c !in t.closed
    ensures Rooted(p, m, start, Close(t, c))
  {
    hide EdgeCost, Traversable, LineClear, Reachable;
    var t' := Close(t, c);
    forall d | d in t'.parent
      ensures Reachable(m, start, d)
    {
      assert d in t.parent ==> Reachable(m, start, d);
    }
    forall d | d in t'.parent && d != start
      ensures Leg(p, m, t', d)
    {
      assert Leg(p, m, t, d);
    }
  }

  lemma ConnectKeepsRooted(p: Planner, m: CostMap, start: Coord, t: Tree, c: Coord, parent: Coord, cost: real)
    requires Rooted(p, m, start, t) && Offer(p, m, t, c, parent, cost) && Reachable(m, start, c)
    ensures Rooted(p, m, start, Connect(t, c, parent, cost))
  {
    hide EdgeCost, Traversable, LineClear, Reachable;
    var t' := Connect(t, c, parent, cost);
    forall d | d in t'.parent && d != start
      ensures Leg(p, m, t', d)
    {
      if d != c {
        assert Leg(p, m, t, d);
      }
    }
  }

  // ----- coverage -----

  /** The first `upTo` traversable neighbours of `c` have been reached. */
  ghost predicate Expanded(m: CostMap, t: Tree, c: Coord, upTo: nat)
    requires upTo <= 8
  {
    forall k :: 0 <= k < upTo && Traversable(m, Neighbor(c, k)) ==> Neighbor(c, k) in t.parent
  }

  /** Every reached cell that is not closed waits in the open set under its current score; no node scores less. */
  ghost predicate Waiting(p: Planner, goal: Coord, t: Tree, open: multiset<SearchNode>)
    requires t.g.Keys == t.parent.Keys
  {
    && (forall n :: n in open ==> n.coord in t.parent && n.fScore >= t.g[n.coord] + Heuristic(p, n.coord, goal))
    && (forall c :: c in t.parent && c !in t.closed ==> SearchNode(c, t.g[c] + Heuristic(p, c, goal)) in open)
  }

  /** Closed cells are off the goal and expanded, the current one up to its neighbour `upTo`. */
  ghost predicate Covered(p: Planner, m: CostMap, goal: Coord, t: Tree, current: Option<Coord>, upTo: nat)
    requires upTo <= 8
  {
    && (forall c :: c in t.closed ==> Manhattan(c, goal) > p.goalTolerance)
    && (forall c :: c in t.closed && current != Some(c) ==> Expanded(m, t, c, 8))
    && (current.Some? ==> current.value in t.closed && Expanded(m, t, current.value, upTo))
  }

  // ----- costs -----

  /** Through which cell the search offers `n` to be reached once `c` is closed. */
  ghost function Via(m: CostMap, t: Tree, c: Coord, n: Coord): Coord
    requires c in t.parent
  {
    if t.parent[c] != c && LineClear(m, t.parent[c], n) then t.parent[c] else c
  }

  /** `n` costs no more than going through the closed cell `c`, or its parent if that sees `n`. */
  ghost predicate Settled(p: Planner, m: CostMap, t: Tree, c: Coord, n: Coord)
    requires c in t.parent && t.g.Keys == t.parent.Keys
  {
    && n in t.g && Via(m, t, c, n) in t.g
    && t.g[n] <= t.g[Via(m, t, c, n)] + EdgeCost(p, m, Via(m, t, c, n), n)
  }

  /** `n` was closed before `c`. */
  ghost predicate ClosedBefore(t: Tree, n: Coord, c: Coord)
    requires t.rank.Keys == t.closed && c in t.closed
  {
    n in t.closed && t.rank[n] < t.rank[c]
  }

  /** The first `upTo` traversable neighbours of `c` that were not closed before it are settled. */
  ghost predicate Relaxed(p: Planner, m: CostMap, t: Tree, c: Coord, upTo: nat)
    requires upTo <= 8 && c in t.closed && t.closed <= t.parent.Keys
    requires t.g.Keys == t.parent.Keys && t.rank.Keys == t.closed
  {
    forall k :: 0 <= k < upTo && Traversable(m, Neighbor(c, k)) && !ClosedBefore(t, Neighbor(c, k), c) ==>
      Settled(p, m, t, c, Neighbor(c, k))
  }

  /** All closed cells are relaxed, the current one, the last to be closed, up to its neighbour `upTo`. */
  ghost predicate Tight(p: Planner, m: CostMap, t: Tree, current: Option<Coord>, upTo: nat)
    requires upTo <= 8 && t.closed <= t.parent.Keys && t.g.Keys == t.parent.Keys && t.rank.Keys == t.closed
  {
    && (forall c :: c in t.closed && current != Some(c) ==> Relaxed(p, m, t, c, 8))
    && (current.Some? ==>
          && current.value in t.closed && Relaxed(p, m, t, current.value, upTo)
          && forall c :: c in t.closed && c != current.value ==> t.rank[c] < t.rank[current.value])
  }

  lemma CloseKeepsRelaxed(p: Planner, m: CostMap, start: Coord, t: Tree, c: Coord, d: Coord)
    requires Rooted(p, m, start, t) && d in t.closed && Relaxed(p, m, t, d, 8) && c in t.parent && c !in t.closed
    ensures Relaxed(p, m, Close(t, c), d, 8)
  {
    hide Traversable, LineClear, EdgeCost, Legs, Grounded;
    forall k | 0 <= k < 8 && Traversable(m, Neighbor(d, k)) && !ClosedBefore(Close(t, c), Neighbor(d, k), d)
      ensures Settled(p, m, Close(t, c), d, Neighbor(d, k))
    {
      assert !ClosedBefore(t, Neighbor(d, k), d);
      assert Settled(p, m, t, d, Neighbor(d, k));
    }
  }

  lemma CloseKeepsTight(p: Planner, m: CostMap, start: Coord, t: Tree, c: Coord)
    requires Rooted(p, m, start, t) && Tight(p, m, t, None, 0) && c in t.parent && c !in t.closed
    ensures Tight(p, m, Close(t, c), Some(c), 0)
  {
    hide Settled, ClosedBefore, EdgeCost, Legs, Grounded;
    forall d | d in t.closed
      ensures Relaxed(p, m, Close(t, c), d, 8)
    {
      CloseKeepsRelaxed(p, m, start, t, c, d);
    }
  }

  /** Taking a cheaper offer for an open cell keeps all closed cells relaxed. */
  lemma ConnectKeepsRelaxed(p: Planner, m: CostMap, start: Coord, t: Tree, d: Coord, upTo: nat, n: Coord,
                            parent: Coord, cost: real)
    requires Rooted(p, m, start, t) && d in t.closed && upTo <= 8 && Relaxed(p, m, t, d, upTo)
    requires n !in t.closed && parent in t.closed && (n in t.g ==> cost <= t.g[n])
    ensures Relaxed(p, m, Connect(t, n, parent, cost), d, upTo)
  {
    hide Traversable, LineClear, EdgeCost, Grounded;
    var t' := Connect(t, n, parent, cost);
    if d != start {
      assert Leg(p, m, t, d);
    }
    forall k | 0 <= k < upTo && Traversable(m, Neighbor(d, k)) && !ClosedBefore(t', Neighbor(d, k), d)
      ensures Settled(p, m, t', d, Neighbor(d, k))
    {
      assert !ClosedBefore(t, Neighbor(d, k), d);
      assert Settled(p, m, t, d, Neighbor(d, k));
    }
  }

  lemma ConnectKeepsTight(p: Planner, m: CostMap, start: Coord, t: Tree, current: Coord, k: nat, parent: Coord,
                          cost: real)
    requires k < 8 && Rooted(p, m, start, t) && Tight(p, m, t, Some(current), k)
    requires var n := Neighbor(current, k);
      && Offer(p, m, t, n, parent, cost) && parent == Via(m, t, current, n) && (n in t.g ==> cost <= t.g[n])
    ensures Tight(p, m, Connect(t, Neighbor(current, k), parent, cost), Some(current), k + 1)
  {
    hide Traversable, LineClear, EdgeCost, Legs, Grounded, Relaxed, Settled;
    var n := Neighbor(current, k);
    var t' := Connect(t, n, parent, cost);
    forall d | d in t'.closed && d != current
      ensures Relaxed(p, m, t', d, 8)
    {
      ConnectKeepsRelaxed(p, m, start, t, d, 8, n, parent, cost);
    }
    ConnectKeepsRelaxed(p, m, start, t, current, k, n, parent, cost);
    OfferSettles(p, m, start, t, current, n, parent, cost);
    OneMoreRelaxed(p, m, t', current, k);
  }

  lemma OfferSettles(p: Planner, m: CostMap, start: Coord, t: Tree, current: Coord, n: Coord, parent: Coord, cost: real)
    requires Rooted(p, m, start, t) && current in t.closed && Offer(p, m, t, n, parent, cost)
    requires parent == Via(m, t, current, n)
    ensures Settled(p, m, Connect(t, n, parent, cost), current, n)
  {
    hide Traversable, LineClear, EdgeCost, Legs, Grounded;
  }

  lemma OneMoreRelaxed(p: Planner, m: CostMap, t: Tree, c: Coord, k: nat)
    requires k < 8 && c in t.closed && t.closed <= t.parent.Keys && t.g.Keys == t.parent.Keys && t.rank.Keys == t.closed
    requires Relaxed(p, m, t, c, k)
    requires var n := Neighbor(c, k);
      Traversable(m, n) && !ClosedBefore(t, n, c) ==> Settled(p, m, t, c, n)
    ensures Relaxed(p, m, t, c, k + 1)
  {
    hide Traversable, Settled;
  }

  // ----- keeping the open set -----

  lemma CloseKeepsWaiting(p: Planner, goal: Coord, t: Tree, open: multiset<SearchNode>, node: SearchNode)
    requires t.g.Keys == t.parent.Keys && Waiting(p, goal, t, open) && node in open
    ensures Waiting(p, goal, Close(t, node.coord), open - multiset{node})
  {
    var t', open' := Close(t, node.coord), open - multiset{node};
    forall c | c in t'.parent && c !in t'.closed
      ensures SearchNode(c, t'.g[c] + Heuristic(p, c, goal)) in open'
    {
      assert SearchNode(c, t.g[c] + Heuristic(p, c, goal)) != node;
    }
  }

  lemma CloseKeepsCovered(p: Planner, m: CostMap, goal: Coord, t: Tree, c: Coord)
    requires Covered(p, m, goal, t, None, 0) && Manhattan(c, goal) > p.goalTolerance
    ensures Covered(p, m, goal, Close(t, c), Some(c), 0)
  {
    var t' := Close(t, c);
    forall d | d in t'.closed && d != c
      ensures Expanded(m, t', d, 8)
    {
      assert Expanded(m, t, d, 8);
    }
  }

  lemma ConnectKeepsWaiting(p: Planner, goal: Coord, t: Tree, open: multiset<SearchNode>, c: Coord, parent: Coord,
                            cost: real)
    requires t.g.Keys == t.parent.Keys && Waiting(p, goal, t, open) && (c in t.g ==> cost <= t.g[c])
    ensures Waiting(p, goal, Connect(t, c, parent, cost), open + multiset{SearchNode(c, cost + Heuristic(p, c, goal))})
  {
    hide Heuristic;
  }

  lemma ConnectKeepsCovered(p: Planner, m: CostMap, goal: Coord, t: Tree, current: Coord, k: nat, parent: Coord,
                            cost: real)
    requires k < 8 && Covered(p, m, goal, t, Some(current), k)
    ensures Covered(p, m, goal, Connect(t, Neighbor(current, k), parent, cost), Some(current), k + 1)
  {
    var t' := Connect(t, Neighbor(current, k), parent, cost);
    forall d | d in t'.closed && d != current
      ensures Expanded(m, t', d, 8)
    {
      assert Expanded(m, t, d, 8);
    }
  }

  /** When the open set runs dry, nothing near the goal is reachable. */
  lemma DryMeansUnreachable(p: Planner, m: CostMap, start: Coord, goal: Coord, t: Tree)
    requires Rooted(p, m, start, t) && Waiting(p, goal, t, multiset{}) && Covered(p, m, goal, t, None, 0)
    ensures !GoalReachable(p, m, start, goal)
  {
    hide Connected, Traversable;
    forall c, d | c in t.closed && d in TraversableCells(m) && Linked(c, d, 1)
      ensures d in t.closed
    {
      if c != d {
        NeighborsAreAdjacent(c, d);
        assert Expanded(m, t, c, 8);
      }
    }
    forall c | Reachable(m, start, c)
      ensures Manhattan(c, goal) > p.goalTolerance
    {
      ConnectedStays(TraversableCells(m), 1, t.closed, start, c);
    }
  }

  // ----- the search -----

  method MeasuredCost(p: Planner, m: CostMap, from: Coord, to: Coord) returns (cost: real)
    ensures cost == EdgeCost(p, m, from, to)
  {
    var distance := EdgeLength(p, from, to);
    var wallPenalty := IntegrateWallPenalty(m, from, to);
    cost := distance + p.wallPenaltyWeight * wallPenalty * distance;
  }

  /** All that holds of the search's maps while the first `upTo` neighbours of `current` have been looked at. */
  ghost predicate Searching(p: Planner, m: CostMap, start: Coord, goal: Coord, t: Tree, open: multiset<SearchNode>,
                            current: Option<Coord>, upTo: nat)
    requires upTo <= 8
  {
    && Rooted(p, m, start, t) && Waiting(p, goal, t, open)
    && Covered(p, m, goal, t, current, upTo) && Tight(p, m, t, current, upTo)
  }

  lemma CloseKeepsSearching(p: Planner, m: CostMap, start: Coord, goal: Coord, t: Tree, open: multiset<SearchNode>,
                            node: SearchNode)
    requires Searching(p, m, start, goal, t, open, None, 0) && node in open
    requires Manhattan(node.coord, goal) > p.goalTolerance && node.coord !in t.closed
    ensures Searching(p, m, start, goal, Close(t, node.coord), open - multiset{node}, Some(node.coord), 0)
  {
    hide Traversable, EdgeCost, LineClear, Reachable, Expanded, Legs, Grounded, Tight;
    CloseKeepsRooted(p, m, start, t, node.coord);
    CloseKeepsWaiting(p, goal, t, open, node);
    CloseKeepsCovered(p, m, goal, t, node.coord);
    CloseKeepsTight(p, m, start, t, node.coord);
  }

  lemma ConnectKeepsSearching(p: Planner, m: CostMap, start: Coord, goal: Coord, t: Tree, open: multiset<SearchNode>,
                              current: Coord, k: nat, parent: Coord, cost: real)
    requires k < 8 && Searching(p, m, start, goal, t, open, Some(current), k)
    requires var c := Neighbor(current, k);
      Offer(p, m, t, c, parent, cost) && parent == Via(m, t, current, c) && (c in t.g ==> cost <= t.g[c])
    ensures var c := Neighbor(current, k);
      Searching(p, m, start, goal, Connect(t, c, parent, cost),
                open + multiset{SearchNode(c, cost + Heuristic(p, c, goal))}, Some(current), k + 1)
  {
    hide Traversable, EdgeCost, LineClear, Reachable, Expanded, Legs, Waiting, Tight;
    var c := Neighbor(current, k);
    assert Reachable(m, start, current);
    NeighborIsAdjacent(current, k);
    ReachableStep(m, start, current, c);
    ConnectKeepsRooted(p, m, start, t, c, parent, cost);
    ConnectKeepsWaiting(p, goal, t, open, c, parent, cost);
    ConnectKeepsCovered(p, m, goal, t, current, k, parent, cost);
    ConnectKeepsTight(p, m, start, t, current, k, parent, cost);
  }

  lemma StartIsSearching(p: Planner, m: CostMap, start: Coord, goal: Coord)
    requires Traversable(m, start)
    ensures var t := Tree(map[start := 0.0], map[start := start], {}, map[]);
      Searching(p, m, start, goal, t, multiset{SearchNode(start, Heuristic(p, start, goal))}, None, 0)
  {
    hide EdgeCost, LineClear, Connected;
    ConnectedSelf(TraversableCells(m), 1, start);
  }

  lemma SkipKeepsSearching(p: Planner, m: CostMap, start: Coord, goal: Coord, t: Tree, open: multiset<SearchNode>,
                           current: Coord, k: nat)
    requires k < 8 && Searching(p, m, start, goal, t, open, Some(current), k)
    requires Traversable(m, Neighbor(current, k)) ==> Neighbor(current, k) in t.parent
    requires var n := Neighbor(current, k);
      Traversable(m, n) && n !in t.closed ==> Settled(p, m, t, current, n)
    ensures Searching(p, m, start, goal, t, open, Some(current), k + 1)
  {
    hide Traversable, Settled, Waiting, Legs, Grounded;
    NeighborIsAdjacent(current, k);
    OneMoreRelaxed(p, m, t, current, k);
  }

  lemma ExpandedKeepsSearching(p: Planner, m: CostMap, start: Coord, goal: Coord, t: Tree, open: multiset<SearchNode>,
                               current: Coord)
    requires Searching(p, m, start, goal, t, open, Some(current), 8)
    ensures Searching(p, m, start, goal, t, open, None, 0)
  {
    hide Waiting, Expanded, Relaxed, Legs, Grounded;
  }

  /**
   Where a traversable, open neighbour is attached: to the grandparent when there is line of sight, else to `current`.
   */
  method ChooseParent(p: Planner, m: CostMap, ghost start: Coord, current: Coord, neighbor: Coord, g: map<Coord, real>,
                      parent: map<Coord, Coord>, ghost t: Tree)
    returns (newG: real, newParent: Coord)
    requires t.g == g && t.parent == parent && Rooted(p, m, start, t)
    requires current in t.closed && Adjacent(current, neighbor) && Traversable(m, neighbor) && neighbor !in t.closed
    ensures Offer(p, m, t, neighbor, newParent, newG)
    ensures newParent == if parent[current] != current && LineClear(m, parent[current], neighbor) then parent[current]
                         else current
  {
    assert Reachable(m, start, current);
    var currentParent := parent[current];
    if currentParent != current {
      assert Leg(p, m, t, current);
      var clear := LineOfSight(m, currentParent, neighbor);
      if clear {
        var edge := MeasuredCost(p, m, currentParent, neighbor);
        return g[currentParent] + edge, currentParent;
      }
    }
    NeighborLineClear(m, current, neighbor);
    var edge := MeasuredCost(p, m, current, neighbor);
    return g[current] + edge, current;
  }

  /** Closed cells keep their cost and their parent. */
  ghost predicate Frozen(closed: set<Coord>, g0: map<Coord, real>, parent0: map<Coord, Coord>, g: map<Coord, real>,
                         parent: map<Coord, Coord>)
  {
    forall c :: c in closed && c in g0 && c in parent0 ==>
      c in g && c in parent && g[c] == g0[c] && parent[c] == parent0[c]
  }

  /** No cost-so-far ever rises. */
  ghost predicate NeverRises(g0: map<Coord, real>, g: map<Coord, real>) {
    forall c :: c in g0 ==> c in g && g[c] <= g0[c]
  }

  /** Look at one neighbour of the cell just closed; `t` on return is the tree of the returned maps. */
  method VisitNeighbor(p: Planner, m: CostMap, start: Coord, goal: Coord, current: Coord, k: nat,
                       open0: multiset<SearchNode>, g0: map<Coord, real>, parent0: map<Coord, Coord>,
                       closed: set<Coord>, ghost t0: Tree)
    returns (open: multiset<SearchNode>, g: map<Coord, real>, parent: map<Coord, Coord>, ghost t: Tree)
    requires k < 8 && t0 == Tree(g0, parent0, closed, t0.rank)
    requires Searching(p, m, start, goal, t0, open0, Some(current), k)
    ensures t == Tree(g, parent, closed, t.rank)
    ensures Searching(p, m, start, goal, t, open, Some(current), k + 1)
    ensures |open| <= |open0| + 1 && Frozen(closed, g0, parent0, g, parent) && NeverRises(g0, g)
  {
    hide EdgeCost, LineClear, Reachable, Expanded, Legs, Grounded, Heuristic, Waiting, Chebyshev, Tight;
    open, g, parent, t := open0, g0, parent0, t0;
    var neighbor := Neighbor(current, k);
    if Cost(m, neighbor) >= INSCRIBED {
      SkipKeepsSearching(p, m, start, goal, t, open, current, k);
      return;
    }
    if neighbor in closed {
      SkipKeepsSearching(p, m, start, goal, t, open, current, k);
      return;
    }
    NeighborIsAdjacent(current, k);
    var newG, newParent := ChooseParent(p, m, start, current, neighbor, g, parent, t);
    if neighbor !in g || newG < g[neighbor] {
      ConnectKeepsSearching(p, m, start, goal, t, open, current, k, newParent, newG);
      t := Connect(t, neighbor, newParent, newG);
      g := g[neighbor := newG];
      parent := parent[neighbor := newParent];
      open := open + multiset{SearchNode(neighbor, newG + Heuristic(p, neighbor, goal))};
    } else {
      SkipKeepsSearching(p, m, start, goal, t, open, current, k);
    }
  }

  /** Look at all eight neighbours of the cell just closed. */
  method ExpandCell(p: Planner, m: CostMap, start: Coord, goal: Coord, current: Coord,
                    open0: multiset<SearchNode>, g0: map<Coord, real>, parent0: map<Coord, Coord>, closed: set<Coord>,
                    ghost t0: Tree)
    returns (open: multiset<SearchNode>, g: map<Coord, real>, parent: map<Coord, Coord>, ghost t: Tree)
    requires t0 == Tree(g0, parent0, closed, t0.rank)
    requires Searching(p, m, start, goal, t0, open0, Some(current), 0)
    ensures t == Tree(g, parent, closed, t.rank)
    ensures Searching(p, m, start, goal, t, open, None, 0)
    ensures |open| <= |open0| + 8 && Frozen(closed, g0, parent0, g, parent) && NeverRises(g0, g)
  {
    hide Rooted, Waiting, EdgeCost, Traversable, Expanded, Tight;
    open, g, parent, t := open0, g0, parent0, t0;
    for k := 0 to 8
      invariant t == Tree(g, parent, closed, t.rank)
      invariant Searching(p, m, start, goal, t, open, Some(current), k)
      invariant |open| <= |open0| + k && Frozen(closed, g0, parent0, g, parent) && NeverRises(g0, g)
    {
      open, g, parent, t := VisitNeighbor(p, m, start, goal, current, k, open, g, parent, closed, t);
    }
    ExpandedKeepsSearching(p, m, start, goal, t, open, current);
  }

  /** `path` is the tree path to its last cell, and no open cell scores below that cell. */
  ghost predicate EndsLowest(p: Planner, m: CostMap, start: Coord, goal: Coord, t: Tree, path: seq<Coord>)
    requires Rooted(p, m, start, t) && path != []
  {
    && Last(path) in t.parent && path == TreePath(p, m, start, t, Last(path))
    && forall c :: c in t.parent && c !in t.closed ==>
         t.g[Last(path)] + p.norm((goal.x - Last(path).x) as real, (goal.y - Last(path).y) as real)
         <= t.g[c] + p.norm((goal.x - c.x) as real, (goal.y - c.y) as real)
  }

  lemma LowestEnds(p: Planner, m: CostMap, start: Coord, goal: Coord, t: Tree, open: multiset<SearchNode>,
                   n: SearchNode)
    requires Rooted(p, m, start, t) && Waiting(p, goal, t, open) && Lowest(open, n)
    ensures n.coord in t.parent && TreePath(p, m, start, t, n.coord) != []
    ensures Last(TreePath(p, m, start, t, n.coord)) == n.coord
    ensures EndsLowest(p, m, start, goal, t, TreePath(p, m, start, t, n.coord))
  {
    hide Legs, Grounded, TreePath, PathCost, LineClear, Traversable;
    TreePathIsClear(p, m, start, t, n.coord);
    forall c | c in t.parent && c !in t.closed
      ensures t.g[n.coord] + Heuristic(p, n.coord, goal) <= t.g[c] + Heuristic(p, c, goal)
    {
      assert SearchNode(c, t.g[c] + Heuristic(p, c, goal)) in open;
    }
  }

  /**
   The search. A returned path runs from `start` to the goal region over clear legs without repeating a cell.
   `pops` counts the nodes taken from the open set: as long as it stays within the cap, `None` means that no
   chain of traversable cells leads to the goal, and 8 * width * height + 1 pops always suffice. `t` is the tree grown:
   its closed cells are relaxed, and no open cell scores below the end of the path.
   */
  method Search(p: Planner, m: CostMap, start: Coord, goal: Coord)
    returns (path: Option<seq<Coord>>, ghost pops: nat, ghost t: Tree)
    requires Traversable(m, start)
    ensures path.Some? ==> ClearPath(m, path.value) && path.value[0] == start
    ensures path.Some? ==> Manhattan(Last(path.value), goal) <= p.goalTolerance
    ensures path.Some? ==> GoalReachable(p, m, start, goal)
    ensures path.None? && pops <= p.maxIterations ==> !GoalReachable(p, m, start, goal)
    ensures pops <= 8 * (m.width * m.height) + 1 && pops <= p.maxIterations + 1
    ensures Rooted(p, m, start, t) && Tight(p, m, t, None, 0)
    ensures path.Some? ==> EndsLowest(p, m, start, goal, t, path.value)
  {
    hide EdgeCost, Traversable, LineClear, Expanded, Legs, Heuristic, GoalReachable, Grounded, Tight, EndsLowest,
      TreePath, NeverRises, Frozen;
    var g, parent, closed := map[start := 0.0], map[start := start], {};
    var open := multiset{SearchNode(start, Heuristic(p, start, goal))};
    t := Tree(g, parent, closed, map[]);
    StartIsSearching(p, m, start, goal);
    var iterations := 0;
    pops := 0;
    while open != multiset{}
      invariant t == Tree(g, parent, closed, t.rank)
      invariant Searching(p, m, start, goal, t, open, None, 0)
      invariant iterations == pops && pops + |open| <= 1 + 8 * |closed|
      invariant |closed| <= m.width * m.height && pops <= p.maxIterations
      decreases m.width * m.height - |closed|, |open|
    {
      var node;
      ghost var before := open;
      node, open := PopLowest(open);
      iterations, pops := iterations + 1, pops + 1;
      if iterations > p.maxIterations {
        return None, pops, t;
      }
      var current := node.coord;
      if Manhattan(current, goal) <= p.goalTolerance {
        var cells := ReconstructPath(p, m, start, t, parent, current);
        TreePathIsClear(p, m, start, t, current);
        InTreeMeansReachable(p, m, start, goal, t, current);
        LowestEnds(p, m, start, goal, t, before, node);
        return Some(cells), pops, t;
      }
      if current in closed {
        continue;
      }
      CloseKeepsSearching(p, m, start, goal, t, before, node);
      t := Close(t, current);
      closed := closed + {current};
      ClosedBound(p, m, start, t);
      open, g, parent, t := ExpandCell(p, m, start, goal, current, open, g, parent, closed, t);
    }
    DryMeansUnreachable(p, m, start, goal, t);
    return None, pops, t;
  }

  lemma InTreeMeansReachable(p: Planner, m: CostMap, start: Coord, goal: Coord, t: Tree, c: Coord)
    requires Rooted(p, m, start, t) && c in t.parent && Manhattan(c, goal) <= p.goalTolerance
    ensures GoalReachable(p, m, start, goal)
  {
    hide Connected, Traversable, Legs;
    assert Reachable(m, start, c);
  }

  lemma ClosedBound(p: Planner, m: CostMap, start: Coord, t: Tree)
    requires Rooted(p, m, start, t)
    ensures |t.closed| <= m.width * m.height
  {
    forall c | c in t.closed
      ensures InGrid(m.width, m.height, c)
    {
      assert Traversable(m, c);
    }
    GridSetBound(m.width, m.height, t.closed);
  }

  // ----- path reconstruction -----

  function Reversed<T>(s: seq<T>): seq<T> {
    seq(|s|, i requires 0 <= i < |s| => s[|s| - 1 - i])
  }

  /** Follow the parents back to the root and turn the list around. */
  method ReconstructPath(p: Planner, m: CostMap, ghost start: Coord, ghost t: Tree, parent: map<Coord, Coord>,
                         goal: Coord)
    returns (path: seq<Coord>)
    requires Rooted(p, m, start, t) && parent == t.parent && goal in parent
    ensures path == TreePath(p, m, start, t, goal)
  {
    path := [];
    var current := goal;
    while true
      invariant current in parent
      invariant TreePath(p, m, start, t, goal) == TreePath(p, m, start, t, current) + Reversed(path)
      decreases Depth(t, current)
    {
      assert Reversed(path + [current]) == [current] + Reversed(path);
      path := path + [current];
      if parent[current] == current {
        break;
      }
      assert Leg(p, m, t, current);
      current := parent[current];
    }
    path := Reversed(path);
  }
}

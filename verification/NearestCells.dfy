/**
 Two searches for the traversable cell nearest to a target: the planner's ring scan and the cost map's
 breadth-first search.
 */
module NearestCells {
  import opened Grids
  import opened Brushfire
  import opened CostLayers
  import opened Bresenham
  import opened CostMaps

  ghost predicate InReach(m: CostMap, target: Coord, radius: int, c: Coord) {
    Traversable(m, c) && Chebyshev(c, target) <= radius
  }

  /**
   The contract both searches aim at: the target itself when it is traversable, otherwise a nearest traversable
   cell within the radius, and `None` exactly when there is none.
   */
  ghost predicate IsNearest(m: CostMap, target: Coord, radius: int, r: Option<Coord>) {
    match r
    case None => !Traversable(m, target) && forall c :: !InReach(m, target, radius, c)
    case Some(c) =>
      && Traversable(m, c)
      && (c == target || Chebyshev(c, target) <= radius)
      && forall d :: InReach(m, target, radius, d) ==> Chebyshev(c, target) <= Chebyshev(d, target)
  }

  /** Any two searches that meet the contract agree on success and on the distance they find. */
  lemma SearchesAgree(m: CostMap, target: Coord, radius: int, r: Option<Coord>, s: Option<Coord>)
    requires IsNearest(m, target, radius, r) && IsNearest(m, target, radius, s)
    ensures r.Some? == s.Some?
    ensures r.Some? ==> Chebyshev(r.value, target) == Chebyshev(s.value, target)
  {
    if r.Some? && r.value != target {
      assert InReach(m, target, radius, r.value);
    }
    if s.Some? && s.value != target {
      assert InReach(m, target, radius, s.value);
    }
    if r.Some? && s.Some? && (r.value == target || s.value == target) {
      assert Traversable(m, target);
      if r.value != target {
        assert InReach(m, target, radius, target);
      } else if s.value != target {
        assert InReach(m, target, radius, target);
      }
    }
  }

  // ----- ring scan -----

  method FindNearestTraversable(m: CostMap, center: Coord, maxRadius: int) returns (found: Option<Coord>)
    ensures IsNearest(m, center, maxRadius, found)
  {
    if Traversable(m, center) {
      return Some(center);
    }
    var r := 1;
    while r <= maxRadius
      invariant r >= 1 && (maxRadius >= 0 ==> r <= maxRadius + 1)
      invariant forall c :: Chebyshev(c, center) < r ==> !Traversable(m, c)
    {
      found := ScanRing(m, center, r);
      if found.Some? {
        return;
      }
      r := r + 1;
    }
    return None;
  }

  /** One ring: the cells at Chebyshev distance exactly `r`, column by column. */
  method ScanRing(m: CostMap, center: Coord, r: int) returns (found: Option<Coord>)
    requires r >= 1
    ensures found.Some? ==> Traversable(m, found.value) && Chebyshev(found.value, center) == r
    ensures found.None? ==> forall c :: Chebyshev(c, center) == r ==> !Traversable(m, c)
  {
    for dx := -r to r + 1
      invariant forall c :: Chebyshev(c, center) == r && c.x - center.x < dx ==> !Traversable(m, c)
    {
      for dy := -r to r + 1
        invariant forall c :: Chebyshev(c, center) == r && c.x - center.x < dx ==> !Traversable(m, c)
        invariant forall c :: Chebyshev(c, center) == r && c.x - center.x == dx && c.y - center.y < dy ==>
          !Traversable(m, c)
      {
        if Abs(dx) != r && Abs(dy) != r {
          continue;
        }
        var c := Coord(center.x + dx, center.y + dy);
        if Traversable(m, c) {
          return Some(c);
        }
      }
    }
    return None;
  }

  // ----- breadth-first search -----

  /** The search can leave the target: it lies in the grid or touches it. */
  predicate Attached(m: CostMap, target: Coord) {
    m.width > 0 && m.height > 0 && -1 <= target.x <= m.width && -1 <= target.y <= m.height
  }

  function Clamp(v: int, size: nat): int
    requires size > 0
  {
    if v < 0 then 0 else if v >= size then size - 1 else v
  }

  function StepToward(from: int, to: int): int {
    if from < to then from + 1 else if from > to then from - 1 else from
  }

  /** The cell the search reaches `c` from: one move closer to the target, staying inside the grid. */
  function Before(m: CostMap, c: Coord, target: Coord): Coord
    requires InGrid(m.width, m.height, c)
  {
    if Chebyshev(c, target) <= 1 then target
    else Coord(Clamp(StepToward(c.x, target.x), m.width), Clamp(StepToward(c.y, target.y), m.height))
  }

  lemma BeforeIsCloser(m: CostMap, c: Coord, target: Coord)
    requires InGrid(m.width, m.height, c) && Attached(m, target) && c != target
    ensures var b := Before(m, c, target);
      && Adjacent(b, c)
      && Chebyshev(b, target) == Chebyshev(c, target) - 1
      && (b == target || InGrid(m.width, m.height, b))
  {
  }

  /** Cells the search may have seen: the target and the cells of the grid. */
  predicate Known(m: CostMap, target: Coord, c: Coord) {
    c == target || InGrid(m.width, m.height, c)
  }

  /** Inside the radius, `c` was blocked and its first `upTo` neighbours have been visited. */
  ghost predicate Passed(m: CostMap, target: Coord, radius: int, visited: set<Coord>, c: Coord, upTo: nat)
    requires upTo <= 8
  {
    Chebyshev(c, target) <= radius ==>
      && !Traversable(m, c)
      && forall k :: 0 <= k < upTo && InGrid(m.width, m.height, Neighbor(c, k)) ==> Neighbor(c, k) in visited
  }

  /** Visited cells that left the queue have been passed, the one being expanded up to its neighbour `upTo`. */
  ghost predicate Searching(m: CostMap, target: Coord, radius: int, visited: set<Coord>, queue: seq<Coord>,
                            current: Option<Coord>, upTo: nat)
  {
    && upTo <= 8
    && target in visited
    && (forall c :: c in visited ==> Known(m, target, c))
    && (forall c :: c in queue ==> c in visited)
    && (forall c :: c in visited && c !in queue && current != Some(c) ==> Passed(m, target, radius, visited, c, 8))
    && (current.Some? ==> current.value in visited && Passed(m, target, radius, visited, current.value, upTo))
  }

  /** The queue is ordered by distance and holds at most two consecutive distances, the lower one `level`. */
  ghost predicate Layers(target: Coord, queue: seq<Coord>, level: nat) {
    && (forall c :: c in queue ==> level <= Chebyshev(c, target) <= level + 1)
    && (forall i, j :: 0 <= i < j < |queue| ==> Chebyshev(queue[i], target) <= Chebyshev(queue[j], target))
  }

  /** The search proceeds in rings: no cell up to the queue's lowest distance can have been missed. */
  lemma {:induction false} NothingMissed(m: CostMap, target: Coord, radius: int, visited: set<Coord>, queue: seq<Coord>,
                                         level: int, c: Coord)
    requires Searching(m, target, radius, visited, queue, None, 0) && Attached(m, target)
    requires forall d :: d in queue ==> level <= Chebyshev(d, target)
    requires Known(m, target, c) && Chebyshev(c, target) <= level && level - 1 <= radius
    ensures c in visited
    decreases Chebyshev(c, target)
  {
    if c != target {
      var b := Before(m, c, target);
      BeforeIsCloser(m, c, target);
      NothingMissed(m, target, radius, visited, queue, level, b);
      assert Passed(m, target, radius, visited, b, 8);
      NeighborsAreAdjacent(b, c);
    }
  }

  /** A traversable cell at the head of the queue is a nearest one. */
  lemma HeadIsNearest(m: CostMap, target: Coord, radius: int, visited: set<Coord>, queue: seq<Coord>)
    requires Searching(m, target, radius, visited, queue, None, 0) && Attached(m, target)
    requires queue != [] && Layers(target, queue, Chebyshev(queue[0], target))
    requires InReach(m, target, radius, queue[0])
    ensures IsNearest(m, target, radius, Some(queue[0]))
  {
    forall d | InReach(m, target, radius, d)
      ensures Chebyshev(queue[0], target) <= Chebyshev(d, target)
    {
      if Chebyshev(d, target) < Chebyshev(queue[0], target) {
        NothingMissed(m, target, radius, visited, queue, Chebyshev(queue[0], target), d);
      }
    }
  }

  lemma ExhaustedMeansNone(m: CostMap, target: Coord, radius: int, visited: set<Coord>)
    requires Searching(m, target, radius, visited, [], None, 0) && Attached(m, target)
    ensures forall c :: !InReach(m, target, radius, c)
  {
    forall c | InReach(m, target, radius, c)
      ensures false
    {
      NothingMissed(m, target, radius, visited, [], radius, c);
    }
  }

  lemma KnownBound(m: CostMap, target: Coord, visited: set<Coord>)
    requires forall c :: c in visited ==> Known(m, target, c)
    ensures |visited| <= m.width * m.height + 1
  {
    GridSetBound(m.width, m.height, visited - {target});
    assert |visited| <= |visited - {target}| + 1;
  }

  /**
   Breadth-first search outwards from the target. It meets the contract of a nearest-cell search unless the target
   lies beyond the cells touching the grid, where it can reach nothing.
   */
  method FindClosestReachableTo(m: CostMap, target: Coord, maxRadius: int) returns (found: Option<Coord>)
    ensures IsNearest(m, target, maxRadius, found)
      <==> Attached(m, target) || forall c :: !InReach(m, target, maxRadius, c)
    ensures !Attached(m, target) ==> found == None
  {
    if Traversable(m, target) {
      return Some(target);
    }
    var queue, visited := [target], {target};
    ghost var level: nat := 0;
    while queue != []
      invariant Searching(m, target, maxRadius, visited, queue, None, 0)
      invariant Layers(target, queue, level)
      invariant !Attached(m, target) ==> visited == {target}
      invariant |visited| <= m.width * m.height + 1
      decreases m.width * m.height + 1 - |visited|, |queue|
    {
      var current := queue[0];
      level := Chebyshev(current, target);
      assert Layers(target, queue, level);
      if Abs(current.x - target.x) > maxRadius || Abs(current.y - target.y) > maxRadius {
        assert Passed(m, target, maxRadius, visited, current, 8);
        assert queue == [current] + queue[1..];
        queue := queue[1..];
        continue;
      }
      if Traversable(m, current) {
        assert InReach(m, target, maxRadius, current);
        if Attached(m, target) {
          HeadIsNearest(m, target, maxRadius, visited, queue);
        }
        return Some(current);
      }
      queue, visited := PushNeighbors(m, target, maxRadius, queue, visited, level);
    }
    if Attached(m, target) {
      ExhaustedMeansNone(m, target, maxRadius, visited);
    }
    return None;
  }

  /** Two cells left of a single free cell: within the radius, but the search never enters the grid. */
  lemma FarTargetMissed()
    ensures var m := RawCostMap(1, 1, 1.0, Point(0.0, 0.0), [FREE], [Infinite], 0);
      && !Attached(m, Coord(-2, 0)) && InReach(m, Coord(-2, 0), 2, Coord(0, 0))
      && !IsNearest(m, Coord(-2, 0), 2, None)
  {
    var m: CostMap := RawCostMap(1, 1, 1.0, Point(0.0, 0.0), [FREE], [Infinite], 0);
    assert Index(1, Coord(0, 0)) == 0;
    assert InReach(m, Coord(-2, 0), 2, Coord(0, 0));
  }

  lemma VisitKeepsSearching(m: CostMap, target: Coord, radius: int, visited: set<Coord>, queue: seq<Coord>, c: Coord,
                            k: nat)
    requires k < 8 && Searching(m, target, radius, visited, queue, Some(c), k)
    requires InGrid(m.width, m.height, Neighbor(c, k))
    ensures Searching(m, target, radius, visited + {Neighbor(c, k)}, queue + [Neighbor(c, k)], Some(c), k + 1)
  {
    var next := Neighbor(c, k);
    var visited', queue' := visited + {next}, queue + [next];
    forall b | b in visited' && b !in queue' && b != c
      ensures Passed(m, target, radius, visited', b, 8)
    {
      assert b in visited && b !in queue;
      assert Passed(m, target, radius, visited, b, 8);
    }
  }

  lemma VisitKeepsLayers(target: Coord, queue: seq<Coord>, level: nat, next: Coord)
    requires Layers(target, queue, level) && Chebyshev(next, target) == level + 1
    ensures Layers(target, queue + [next], level)
  {
    forall i, j | 0 <= i < j < |queue + [next]|
      ensures Chebyshev((queue + [next])[i], target) <= Chebyshev((queue + [next])[j], target)
    {
      assert queue[i] in queue;
    }
  }

  /** A neighbour of the head that was not visited yet lies exactly one ring further out. */
  lemma UnvisitedIsNextLayer(m: CostMap, target: Coord, radius: int, seen: set<Coord>, waiting: seq<Coord>, k: nat)
    requires waiting != [] && Searching(m, target, radius, seen, waiting, None, 0)
    requires Layers(target, waiting, Chebyshev(waiting[0], target)) && Chebyshev(waiting[0], target) <= radius
    requires !Attached(m, target) ==> seen == {target}
    requires k < 8 && InGrid(m.width, m.height, Neighbor(waiting[0], k)) && Neighbor(waiting[0], k) !in seen
    ensures Attached(m, target) && Chebyshev(Neighbor(waiting[0], k), target) == Chebyshev(waiting[0], target) + 1
  {
    var next := Neighbor(waiting[0], k);
    assert waiting[0] in seen;
    if Attached(m, target) && Chebyshev(next, target) <= Chebyshev(waiting[0], target) {
      NothingMissed(m, target, radius, seen, waiting, Chebyshev(waiting[0], target), next);
    }
  }

  /** Take the blocked cell at the head of the queue and queue its unvisited neighbours. */
  method PushNeighbors(m: CostMap, target: Coord, radius: int, waiting: seq<Coord>, seen: set<Coord>, ghost level: nat)
    returns (queue: seq<Coord>, visited: set<Coord>)
    requires waiting != [] && Searching(m, target, radius, seen, waiting, None, 0) && Layers(target, waiting, level)
    requires level == Chebyshev(waiting[0], target) <= radius && !Traversable(m, waiting[0])
    requires !Attached(m, target) ==> seen == {target}
    ensures Searching(m, target, radius, visited, queue, None, 0) && Layers(target, queue, level)
    ensures !Attached(m, target) ==> visited == {target}
    ensures |visited| <= m.width * m.height + 1
    ensures (visited == seen && queue == waiting[1..]) || |visited| > |seen|
  {
    var current := waiting[0];
    assert waiting == [current] + waiting[1..];
    queue, visited := waiting[1..], seen;
    for k := 0 to 8
      invariant Searching(m, target, radius, visited, queue, Some(current), k)
      invariant Layers(target, queue, level)
      invariant seen <= visited && (!Attached(m, target) ==> visited == {target})
      invariant (visited == seen && queue == waiting[1..]) || |visited| > |seen|
    {
      var next := Neighbor(current, k);
      if !InGrid(m.width, m.height, next) {
        continue;
      }
      if next !in visited {
        UnvisitedIsNextLayer(m, target, radius, seen, waiting, k);
        VisitKeepsSearching(m, target, radius, visited, queue, current, k);
        VisitKeepsLayers(target, queue, level, next);
        visited := visited + {next};
        queue := queue + [next];
      }
    }
    KnownBound(m, target, visited);
  }
}

/** Frontier detection: which floor cells border the unknown, and how they cluster. */
module Frontiers {
  import opened Chains
  import opened Grids

  // ----- frontier cells -----

  /** The four cells that share an edge with `c`. */
  const EDGES: seq<Coord> := [Coord(-1, 0), Coord(1, 0), Coord(0, -1), Coord(0, 1)]

  predicate BordersUnknown(g: Grid, c: Coord) {
    exists k :: 0 <= k < 4 && GetType(g, Coord(c.x + EDGES[k].x, c.y + EDGES[k].y)) == Unknown
  }

  /** A floor cell off the rim of the grid with an unknown cell across one of its edges. */
  predicate IsFrontier(g: Grid, c: Coord) {
    1 <= c.x < g.width - 1 && 1 <= c.y < g.height - 1 && GetType(g, c) == Floor && BordersUnknown(g, c)
  }

  /** Row-major order. */
  predicate Precedes(a: Coord, b: Coord) {
    a.y < b.y || (a.y == b.y && a.x < b.x)
  }

  ghost predicate Ordered(cells: seq<Coord>) {
    forall i, j :: 0 <= i < j < |cells| ==> Precedes(cells[i], cells[j])
  }

  /** All frontier cells, each once, row by row. */
  method FindFrontierCells(g: Grid) returns (cells: seq<Coord>)
    ensures Ordered(cells)
    ensures forall c :: c in cells <==> IsFrontier(g, c)
  {
    hide BordersUnknown, GetType;
    cells := [];
    var y := 1;
    while y < g.height - 1
      invariant 1 <= y
      invariant Ordered(cells) && forall c :: c in cells <==> IsFrontier(g, c) && c.y < y
    {
      var x := 1;
      while x < g.width - 1
        invariant 1 <= x
        invariant Ordered(cells) && forall c :: c in cells <==> IsFrontier(g, c) && Precedes(c, Coord(x, y))
      {
        var c := Coord(x, y);
        if GetType(g, c) == Floor && BordersUnknown(g, c) {
          cells := cells + [c];
        }
        x := x + 1;
      }
      y := y + 1;
    }
  }

  // ----- clusters -----

  function Members(s: seq<Coord>): set<Coord> {
    set c | c in s
  }

  ghost predicate Distinct(s: seq<Coord>) {
    forall i, j :: 0 <= i < j < |s| ==> s[i] != s[j]
  }

  /** A component: grown from one cell, without repetitions, and closed under links. */
  ghost predicate Component(cells: set<Coord>, d: int, cluster: seq<Coord>) {
    && cluster != []
    && Distinct(cluster)
    && Members(cluster) <= cells
    && Closed(cells, d, Members(cluster))
    && forall c :: c in cluster ==> Connected(cells, d, cluster[0], c)
  }

  /** The clusters are components and do not overlap; together they hold the cells in `seen`. */
  ghost predicate Clustered(cells: set<Coord>, d: int, clusters: seq<seq<Coord>>, seen: set<Coord>) {
    && (forall i :: 0 <= i < |clusters| ==> Component(cells, d, clusters[i]))
    && (forall i, j :: 0 <= i < j < |clusters| ==> Members(clusters[i]) !! Members(clusters[j]))
    && (forall c :: c in seen <==> exists i :: 0 <= i < |clusters| && c in clusters[i])
  }

  /** Two cells lie in the same component exactly when they are connected. */
  lemma SameComponent(cells: set<Coord>, d: int, cluster: seq<Coord>, a: Coord, b: Coord)
    requires Component(cells, d, cluster) && a in cluster
    ensures b in cluster <==> Connected(cells, d, a, b)
  {
    hide Connected, Closed;
    if b in cluster {
      ConnectedSymmetric(cells, d, cluster[0], a);
      ConnectedTransitive(cells, d, a, cluster[0], b);
    }
    if Connected(cells, d, a, b) {
      ConnectedStays(cells, d, Members(cluster), a, b);
    }
  }

  /** What is known while one cluster grows: cells taken from the queue, cells waiting, and everything seen before. */
  ghost predicate Growing(cells: set<Coord>, d: int, seen: set<Coord>, start: Coord, cluster: seq<Coord>,
                          queue: seq<Coord>, visited: set<Coord>)
  {
    && visited == seen + Members(cluster + queue)
    && Distinct(cluster + queue)
    && Members(cluster + queue) !! seen
    && Members(cluster + queue) <= cells
    && (cluster + queue) != [] && (cluster + queue)[0] == start
    && (forall c :: c in cluster + queue ==> Connected(cells, d, start, c))
  }

  /** Everything linked to the cells taken so far has been visited. */
  ghost predicate Explored(cells: set<Coord>, d: int, cluster: seq<Coord>, visited: set<Coord>) {
    forall a, b :: a in cluster && b in cells && Linked(a, b, d) ==> b in visited
  }

  lemma GrowingBound(cells: set<Coord>, d: int, seen: set<Coord>, start: Coord, cluster: seq<Coord>, queue: seq<Coord>,
                     visited: set<Coord>)
    requires Growing(cells, d, seen, start, cluster, queue, visited)
    ensures |cluster| <= |cells|
  {
    hide Connected;
    assert (cluster + queue)[..|cluster|] == cluster;
    DistinctBound(cluster, cells);
  }

  lemma {:induction false} DistinctBound(s: seq<Coord>, cells: set<Coord>)
    requires Distinct(s) && forall c :: c in s ==> c in cells
    ensures |s| <= |cells|
  {
    if s != [] {
      DistinctBound(s[1..], cells - {s[0]});
    }
  }

  lemma VisitKeepsGrowing(cells: set<Coord>, d: int, seen: set<Coord>, start: Coord, cluster: seq<Coord>,
                          queue: seq<Coord>, visited: set<Coord>,
                          a: Coord, b: Coord)
    requires Growing(cells, d, seen, start, cluster, queue, visited)
    requires a in cluster && b in cells && b !in visited && Linked(a, b, d)
    ensures Growing(cells, d, seen, start, cluster, queue + [b], visited + {b})
  {
    hide Connected, Linked;
    ConnectedLink(cells, d, start, a, b);
    assert cluster + (queue + [b]) == cluster + queue + [b];
  }

  lemma StartsGrowing(cells: set<Coord>, d: int, seen: set<Coord>, start: Coord)
    requires start in cells && start !in seen
    ensures Growing(cells, d, seen, start, [], [start], seen + {start})
  {
    hide Connected;
    ConnectedSelf(cells, d, start);
    assert [] + [start] == [start];
  }

  lemma TakeKeepsGrowing(cells: set<Coord>, d: int, seen: set<Coord>, start: Coord, cluster: seq<Coord>,
                         queue: seq<Coord>, visited: set<Coord>)
    requires Growing(cells, d, seen, start, cluster, queue, visited) && queue != []
    ensures Growing(cells, d, seen, start, cluster + [queue[0]], queue[1..], visited)
  {
    hide Connected;
    assert (cluster + [queue[0]]) + queue[1..] == cluster + queue;
  }

  /**
   A grown cluster with an empty queue is a component: earlier components, being closed, hold nothing linked to it.
   */
  lemma GrownIsComponent(cells: set<Coord>, d: int, seen: set<Coord>, start: Coord, cluster: seq<Coord>,
                         visited: set<Coord>)
    requires Growing(cells, d, seen, start, cluster, [], visited) && Explored(cells, d, cluster, visited)
    requires Closed(cells, d, seen) && seen <= cells
    ensures Component(cells, d, cluster) && Members(cluster) !! seen && start in cluster
      && visited == seen + Members(cluster)
  {
    hide Connected;
    assert cluster + [] == cluster;
    forall a, b | a in Members(cluster) && b in cells && Linked(a, b, d)
      ensures b in Members(cluster)
    {
      assert b in visited;
      assert Linked(b, a, d);
    }
  }

  lemma AddComponent(cells: set<Coord>, d: int, clusters: seq<seq<Coord>>, seen: set<Coord>, cluster: seq<Coord>)
    requires Clustered(cells, d, clusters, seen) && Component(cells, d, cluster) && Members(cluster) !! seen
    ensures Clustered(cells, d, clusters + [cluster], seen + Members(cluster))
  {
    hide Component;
    var all := clusters + [cluster];
    forall i | 0 <= i < |clusters|
      ensures Members(clusters[i]) !! Members(cluster)
    {
      forall c | c in clusters[i]
        ensures c in seen
      {
      }
    }
    forall c
      ensures c in seen + Members(cluster) <==> exists i :: 0 <= i < |all| && c in all[i]
    {
      if c in cluster {
        assert c in all[|clusters|];
      }
      if c in seen {
        var i :| 0 <= i < |clusters| && c in clusters[i];
        assert c in all[i];
      }
    }
  }

  lemma ClusteredIsClosed(cells: set<Coord>, d: int, clusters: seq<seq<Coord>>, seen: set<Coord>)
    requires Clustered(cells, d, clusters, seen)
    ensures Closed(cells, d, seen) && seen <= cells
  {
    hide Connected;
    forall a, b | a in seen && b in cells && Linked(a, b, d)
      ensures b in seen
    {
      var i :| 0 <= i < |clusters| && a in clusters[i];
      assert b in Members(clusters[i]);
    }
  }

  /** Visit the frontier cells linked to `current`, the cell just moved to the end of `cluster`. */
  method VisitLinked(cells: set<Coord>, d: int, ghost seen: set<Coord>, ghost start: Coord, ghost cluster: seq<Coord>,
                     current: Coord,
                     queue0: seq<Coord>, visited0: set<Coord>)
    returns (queue: seq<Coord>, visited: set<Coord>)
    requires Growing(cells, d, seen, start, cluster, queue0, visited0) && current in cluster
    ensures Growing(cells, d, seen, start, cluster, queue, visited)
    ensures visited0 <= visited && forall b :: b in cells && Linked(current, b, d) ==> b in visited
  {
    hide Growing;
    queue, visited := queue0, visited0;
    for pass := 0 to 8
      invariant Growing(cells, d, seen, start, cluster, queue, visited)
      invariant visited0 <= visited && (pass > 0 ==> forall b :: b in cells && Linked(current, b, d) ==> b in visited)
    {
      var dy := -d;
      while dy <= d
        invariant Growing(cells, d, seen, start, cluster, queue, visited)
        invariant visited0 <= visited
        invariant forall b :: b in cells && Linked(current, b, d) && b.y - current.y < dy ==> b in visited
      {
        var dx := -d;
        while dx <= d
          invariant Growing(cells, d, seen, start, cluster, queue, visited)
          invariant visited0 <= visited
          invariant forall b ::
            b in cells && Linked(current, b, d) && Precedes(b, Coord(current.x + dx, current.y + dy)) ==> b in visited
        {
          var candidate := Coord(current.x + dx, current.y + dy);
          if candidate in cells && candidate !in visited {
            VisitKeepsGrowing(cells, d, seen, start, cluster, queue, visited, current, candidate);
            visited := visited + {candidate};
            queue := queue + [candidate];
          }
          dx := dx + 1;
        }
        dy := dy + 1;
      }
    }
  }

  /** Flood fill from a cell that no earlier cluster contains. */
  method GrowCluster(cells: set<Coord>, d: int, seen: set<Coord>, start: Coord)
    returns (cluster: seq<Coord>, visited: set<Coord>)
    requires start in cells && start !in seen && Closed(cells, d, seen) && seen <= cells
    ensures Component(cells, d, cluster) && Members(cluster) !! seen && start in cluster
    ensures visited == seen + Members(cluster)
  {
    hide Connected, Linked, Component, Growing, Closed;
    cluster := [];
    var queue := [start];
    visited := seen + {start};
    StartsGrowing(cells, d, seen, start);
    while queue != []
      invariant Growing(cells, d, seen, start, cluster, queue, visited)
      invariant Explored(cells, d, cluster, visited)
      invariant |cluster| <= |cells|
      decreases |cells| - |cluster|
    {
      var current := queue[0];
      TakeKeepsGrowing(cells, d, seen, start, cluster, queue, visited);
      cluster := cluster + [current];
      queue := queue[1..];
      queue, visited := VisitLinked(cells, d, seen, start, cluster, current, queue, visited);
      GrowingBound(cells, d, seen, start, cluster, queue, visited);
    }
    GrownIsComponent(cells, d, seen, start, cluster, visited);
  }

  /**
   The clusters are exactly the connected components of the frontier cells: they partition the cells, and two cells
   share a cluster if and only if they are connected.
   */
  method ClusterFrontiers(frontierCells: seq<Coord>, d: int) returns (clusters: seq<seq<Coord>>)
    ensures Clustered(Members(frontierCells), d, clusters, Members(frontierCells))
    ensures forall i, a, b :: 0 <= i < |clusters| && a in clusters[i] ==>
      (b in clusters[i] <==> Connected(Members(frontierCells), d, a, b))
  {
    hide Connected, Component, Closed;
    var cells := Members(frontierCells);
    var visited := {};
    clusters := [];
    for n := 0 to |frontierCells|
      invariant Clustered(cells, d, clusters, visited)
      invariant forall i :: 0 <= i < n ==> frontierCells[i] in visited
      invariant visited <= cells
    {
      var start := frontierCells[n];
      if start in visited {
        continue;
      }
      ClusteredIsClosed(cells, d, clusters, visited);
      ghost var seen := visited;
      var cluster;
      cluster, visited := GrowCluster(cells, d, visited, start);
      AddComponent(cells, d, clusters, seen, cluster);
      clusters := clusters + [cluster];
      ClusteredIsClosed(cells, d, clusters, visited);
    }
    assert visited == cells;
    forall i, a, b | 0 <= i < |clusters| && a in clusters[i]
      ensures b in clusters[i] <==> Connected(cells, d, a, b)
    {
      SameComponent(cells, d, clusters[i], a, b);
    }
  }
}

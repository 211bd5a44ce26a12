/** Line of sight and averaged wall penalty: two walks over the same Bresenham cells. */
module LineQueries {
  import opened Grids
  import opened Brushfire
  import opened CostLayers
  import opened Bresenham
  import opened CostMaps

  /** Every cell of the walk from `a` to `b`, both ends included, may be entered. */
  ghost predicate LineClear(m: CostMap, a: Coord, b: Coord) {
    forall k :: 0 <= k <= Steps(a, b) ==> Traversable(m, Cell(a, b, k))
  }

  method LineOfSight(m: CostMap, from: Coord, to: Coord) returns (clear: bool)
    ensures clear <==> LineClear(m, from, to)
  {
    hide Cell, Cost, AtCell;
    var w := Begin(from, to);
    ghost var k := 0;
    BeginAtCell(from, to);
    while true
      invariant AtCell(w, from, to, k)
      invariant forall i :: 0 <= i < k ==> Traversable(m, Cell(from, to, i))
      decreases Steps(from, to) - k
    {
      AtCellPosition(w, from, to, k);
      Endpoints(from, to, k);
      if Cost(m, w.At()) >= INSCRIBED {
        return false;
      }
      if w.At() == to {
        break;
      }
      AdvanceToNextCell(w, from, to, k);
      w := Advance(w, from, to);
      k := k + 1;
    }
    return true;
  }

  /** Line of sight to a neighbouring cell asks about the two cells only. */
  lemma NeighborLineClear(m: CostMap, a: Coord, b: Coord)
    requires Adjacent(a, b) && Traversable(m, a) && Traversable(m, b)
    ensures LineClear(m, a, b)
  {
    Endpoints(a, b, 1);
  }

  /** Line of sight is not symmetric: the two directions round ties differently and visit different cells. */
  lemma DirectionMatters()
    ensures Cell(Coord(0, 0), Coord(2, 1), 1) == Coord(1, 0)
    ensures Cell(Coord(2, 1), Coord(0, 0), 1) == Coord(1, 1)
  {
  }

  // ----- wall penalty -----

  /** How deep a cell lies inside the wall penalty distance, from 0 (outside) to 1 (at a wall). */
  function CellPenalty(m: CostMap, c: Coord): (p: real)
    ensures 0.0 <= p <= 1.0
  {
    var d, limit := ObstacleDistance(m, c), m.wallPenaltyCells as real;
    if d.Finite? && Cells(d.milli) < limit then
      FractionBounds(limit - Cells(d.milli), limit);
      (limit - Cells(d.milli)) / limit
    else
      0.0
  }

  lemma FractionBounds(p: real, q: real)
    requires 0.0 <= p <= q && q > 0.0
    ensures 0.0 <= p / q <= 1.0
  {
    assert p / q * q == p;
  }

  function PenaltySum(m: CostMap, a: Coord, b: Coord, count: nat): real {
    if count == 0 then 0.0 else PenaltySum(m, a, b, count - 1) + CellPenalty(m, Cell(a, b, count - 1))
  }

  /** The mean of the cell penalties over all cells of the walk. */
  function WallPenalty(m: CostMap, a: Coord, b: Coord): real {
    PenaltySum(m, a, b, Steps(a, b) + 1) / (Steps(a, b) + 1) as real
  }

  method IntegrateWallPenalty(m: CostMap, from: Coord, to: Coord) returns (penalty: real)
    ensures penalty == WallPenalty(m, from, to)
    ensures 0.0 <= penalty <= 1.0
  {
    hide Cell, CellPenalty, AtCell;
    var sum, count := 0.0, 0;
    var w := Begin(from, to);
    BeginAtCell(from, to);
    while true
      invariant 0 <= count && AtCell(w, from, to, count)
      invariant sum == PenaltySum(m, from, to, count)
      decreases Steps(from, to) - count
    {
      AtCellPosition(w, from, to, count);
      Endpoints(from, to, count);
      sum := sum + CellPenalty(m, w.At());
      count := count + 1;
      if w.At() == to {
        break;
      }
      AdvanceToNextCell(w, from, to, count - 1);
      w := Advance(w, from, to);
    }
    WallPenaltyBounds(m, from, to);
    penalty := if count > 0 then sum / count as real else 0.0;
  }

  lemma WallPenaltyBounds(m: CostMap, a: Coord, b: Coord)
    ensures 0.0 <= WallPenalty(m, a, b) <= 1.0
  {
    PenaltySumBounds(m, a, b, Steps(a, b) + 1);
    FractionBounds(PenaltySum(m, a, b, Steps(a, b) + 1), (Steps(a, b) + 1) as real);
  }

  /** A line costs nothing extra exactly when all its cells keep the penalty distance. */
  lemma WallPenaltyZero(m: CostMap, a: Coord, b: Coord)
    ensures WallPenalty(m, a, b) == 0.0 <==> forall k :: 0 <= k <= Steps(a, b) ==> CellPenalty(m, Cell(a, b, k)) == 0.0
  {
    hide CellPenalty, Cell;
    var n := Steps(a, b) + 1;
    PenaltySumZero(m, a, b, n);
    assert PenaltySum(m, a, b, n) / n as real * n as real == PenaltySum(m, a, b, n);
  }

  lemma {:induction false} PenaltySumZero(m: CostMap, a: Coord, b: Coord, count: nat)
    ensures PenaltySum(m, a, b, count) == 0.0 <==> forall k :: 0 <= k < count ==> CellPenalty(m, Cell(a, b, k)) == 0.0
  {
    hide CellPenalty, Cell;
    if count > 0 {
      PenaltySumZero(m, a, b, count - 1);
      PenaltySumBounds(m, a, b, count - 1);
    }
  }

  /** A cell at least the penalty distance from every obstacle. */
  predicate KeepsDistance(m: CostMap, c: Coord) {
    ObstacleDistance(m, c).Infinite? || ObstacleDistance(m, c).milli >= 1000 * m.wallPenaltyCells
  }

  /** A cell is free of penalty exactly when it keeps the penalty distance. */
  lemma CellPenaltyZero(m: CostMap, c: Coord)
    ensures CellPenalty(m, c) == 0.0 <==> KeepsDistance(m, c)
  {
    var d, limit := ObstacleDistance(m, c), m.wallPenaltyCells as real;
    if d.Finite? && Cells(d.milli) < limit {
      var q := (limit - Cells(d.milli)) / limit;
      assert q * limit == limit - Cells(d.milli);
    }
  }

  /** Below the penalty distance the penalty falls strictly with the distance, from 1 at an obstacle. */
  lemma CellPenaltyFalls(m: CostMap, c: Coord, d: Coord)
    ensures m.wallPenaltyCells > 0 && ObstacleDistance(m, c) == Finite(0) ==> CellPenalty(m, c) == 1.0
    ensures ObstacleDistance(m, c).Below(ObstacleDistance(m, d)) && !KeepsDistance(m, c) ==>
      CellPenalty(m, c) > CellPenalty(m, d)
  {
    hide ObstacleDistance;
    CellPenaltyZero(m, c);
    CellPenaltyZero(m, d);
    var b, e, limit := ObstacleDistance(m, c), ObstacleDistance(m, d), m.wallPenaltyCells as real;
    if b.Finite? && e.Finite? && e.milli < 1000 * m.wallPenaltyCells {
      QuotientGrows(limit - Cells(b.milli), limit - Cells(e.milli), limit);
    }
  }

  lemma QuotientGrows(a: real, b: real, q: real)
    requires q > 0.0
    ensures a > b ==> a / q > b / q
    ensures q / q == 1.0
  {
    assert a / q * q == a && b / q * q == b && q / q * q == q;
  }

  /** Where all cells of the walk have the same penalty, that is the mean. */
  lemma WallPenaltyUniform(m: CostMap, a: Coord, b: Coord, penalty: real)
    requires forall k :: 0 <= k <= Steps(a, b) ==> CellPenalty(m, Cell(a, b, k)) == penalty
    ensures WallPenalty(m, a, b) == penalty
  {
    hide CellPenalty, Cell;
    var n := Steps(a, b) + 1;
    UniformSum(m, a, b, n, penalty);
    MeanOfEqual(PenaltySum(m, a, b, n), n as real, penalty);
  }

  lemma MeanOfEqual(sum: real, n: real, penalty: real)
    requires n > 0.0 && sum == n * penalty
    ensures sum / n == penalty
  {
    var q := sum / n;
    assert q * n == sum;
    assert (q - penalty) * n == 0.0;
  }

  lemma {:induction false} UniformSum(m: CostMap, a: Coord, b: Coord, count: nat, penalty: real)
    requires forall k :: 0 <= k < count ==> CellPenalty(m, Cell(a, b, k)) == penalty
    ensures PenaltySum(m, a, b, count) == count as real * penalty
  {
    hide CellPenalty, Cell;
    if count > 0 {
      UniformSum(m, a, b, count - 1, penalty);
      assert count as real * penalty == (count - 1) as real * penalty + penalty;
    }
  }

  lemma {:induction false} PenaltySumBounds(m: CostMap, a: Coord, b: Coord, count: nat)
    ensures 0.0 <= PenaltySum(m, a, b, count) <= count as real
  {
    if count > 0 {
      PenaltySumBounds(m, a, b, count - 1);
    }
  }
}

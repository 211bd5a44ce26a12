/** Cost layers over the distance field: lethal, inscribed, inflated, near a wall, free. */
module CostLayers {
  import opened Grids
  import opened Brushfire

  newtype u8 = n: int | 0 <= n < 256

  const FREE: u8 := 0
  const NEAR_OBSTACLE: u8 := 50
  const INSCRIBED: u8 := 254
  const LETHAL: u8 := 255

  /** Cells handled per pass of the blocked loop. */
  const LANES := 4

  /** Conversion of a real to an unsigned byte: truncates, and saturates at both ends. */
  function ToByte(r: real): u8 {
    if r <= 0.0 then 0 else if r >= 255.0 then 255 else r.Floor as u8
  }

  function MaxByte(a: u8, b: u8): u8 {
    if a < b then b else a
  }

  function Cells(milli: nat): real {
    milli as real / 1000.0
  }

  predicate Within(d: Dist, limit: nat) {
    d.Finite? && Cells(d.milli) <= limit as real
  }

  /** How far `milli` lies between two radii given in cells. */
  function Ratio(milli: nat, near: nat, far: nat): real
    requires near < far
  {
    (Cells(milli) - near as real) / (far as real - near as real)
  }

  function InflatedCost(milli: nat, inscribed: nat, inflation: nat): u8
    requires inscribed < inflation && inscribed as real < Cells(milli) <= inflation as real
  {
    RatioBounds(milli, inscribed, inflation);
    MaxByte(INSCRIBED - ToByte((INSCRIBED - NEAR_OBSTACLE) as real * Ratio(milli, inscribed, inflation)), NEAR_OBSTACLE)
  }

  function NearWallCost(milli: nat, inflation: nat, penalty: nat): u8
    requires inflation < penalty
  {
    MaxByte(ToByte(NEAR_OBSTACLE as real * MaxReal(1.0 - Ratio(milli, inflation, penalty), 0.0)), 1)
  }

  /** Cost of a cell that is not lethal; the three radii are in cells. */
  function CellCost(d: Dist, inscribed: nat, inflation: nat, penalty: nat): u8 {
    if Within(d, inscribed) then
      INSCRIBED
    else if Within(d, inflation) then
      InflatedCost(d.milli, inscribed, inflation)
    else if Within(d, penalty) then
      NearWallCost(d.milli, inflation, penalty)
    else
      FREE
  }

  lemma RatioBounds(milli: nat, near: nat, far: nat)
    requires near < far && near as real < Cells(milli) <= far as real
    ensures 0.0 < Ratio(milli, near, far) <= 1.0
  {
    var p, q := Cells(milli) - near as real, far as real - near as real;
    assert Ratio(milli, near, far) * q == p;
  }

  lemma RatioMonotone(m: nat, n: nat, near: nat, far: nat)
    requires near < far && m <= n
    ensures Ratio(m, near, far) <= Ratio(n, near, far)
  {
    var q := far as real - near as real;
    assert Ratio(m, near, far) * q == Cells(m) - near as real;
    assert Ratio(n, near, far) * q == Cells(n) - near as real;
  }

  lemma ToByteMonotone(r: real, s: real)
    requires r <= s
    ensures ToByte(r) <= ToByte(s)
  {
  }

  /** The bands of the three zones: inflated cells cost 50 to 254, cells near a wall 1 to 50. */
  lemma Bands(milli: nat, near: nat, far: nat)
    requires near < far && near as real < Cells(milli) <= far as real
    ensures NEAR_OBSTACLE <= InflatedCost(milli, near, far) <= INSCRIBED
    ensures 1 <= NearWallCost(milli, near, far) <= NEAR_OBSTACLE
  {
    RatioBounds(milli, near, far);
    ToByteMonotone(50.0 * MaxReal(1.0 - Ratio(milli, near, far), 0.0), 50.0);
  }

  /**
   Both zones are linear in the distance, in whole steps downwards: the inflated cost drops from 254 to 50 across the
   margin, the cost near a wall from 50 to 0 across its zone, with 1 as the least.
   */
  lemma LinearLayers(milli: nat, near: nat, far: nat)
    requires near < far && near as real < Cells(milli) <= far as real
    ensures var drop := 254 - InflatedCost(milli, near, far) as int;
      var span, way := 1000 * (far - near), milli - 1000 * near;
      drop * span <= 204 * way < (drop + 1) * span
    ensures var cost, span, rest := NearWallCost(milli, near, far) as int, 1000 * (far - near), 1000 * far - milli;
      if 50 * rest < span then cost == 1 else cost * span <= 50 * rest < (cost + 1) * span
  {
    hide InflatedCost, NearWallCost, Ratio, Cells;
    var r := Ratio(milli, near, far);
    RatioBounds(milli, near, far);
    LayerSteps(milli, near, far);
    WholeRatio(milli, near, far, r);
    FloorSteps(r, milli - 1000 * near, 1000 * (far - near), 204);
    FloorSteps(1.0 - r, 1000 * far - milli, 1000 * (far - near), 50);
    AtLeastOneStep((50.0 * (1.0 - r)).Floor, 1000 * (far - near), 50 * (1000 * far - milli));
  }

  lemma AtLeastOneStep(n: int, span: int, way: int)
    requires span > 0 && n >= 0 && n * span <= way < (n + 1) * span
    ensures n == 0 <==> way < span
  {
    if n > 0 {
      assert n * span == (n - 1) * span + span;
      assert (n - 1) * span >= 0;
    }
  }

  /** The two costs as steps of the ratio. */
  lemma LayerSteps(milli: nat, near: nat, far: nat)
    requires near < far && near as real < Cells(milli) <= far as real
    ensures var r := Ratio(milli, near, far);
      && InflatedCost(milli, near, far) as int == 254 - (204.0 * r).Floor
      && 0 <= (50.0 * (1.0 - r)).Floor
      && NearWallCost(milli, near, far) as int == Max((50.0 * (1.0 - r)).Floor, 1)
  {
    hide Ratio, Cells;
    RatioBounds(milli, near, far);
  }

  lemma WholeRatio(milli: nat, near: nat, far: nat, r: real)
    requires near < far && r == Ratio(milli, near, far)
    ensures r * (1000 * (far - near)) as real == (milli - 1000 * near) as real
    ensures (1.0 - r) * (1000 * (far - near)) as real == (1000 * far - milli) as real
  {
    var q := far as real - near as real;
    assert r * q == Cells(milli) - near as real;
    assert (1000 * (far - near)) as real == 1000.0 * q;
  }

  lemma FloorSteps(r: real, way: int, span: int, steps: int)
    requires span > 0 && r * span as real == way as real
    ensures var n := (steps as real * r).Floor; n * span <= steps * way < (n + 1) * span
  {
    var n := (steps as real * r).Floor;
    var low, high := steps as real * r - n as real, (n + 1) as real - steps as real * r;
    assert low * span as real >= 0.0 && high * span as real > 0.0;
    assert low * span as real == (steps * way - n * span) as real;
    assert high * span as real == ((n + 1) * span - steps * way) as real;
  }

  /** Only cells marked lethal from the start ever carry the lethal cost. */
  lemma NeverLethal(d: Dist, inscribed: nat, inflation: nat, penalty: nat)
    ensures CellCost(d, inscribed, inflation, penalty) <= INSCRIBED
  {
    if Within(d, inscribed) {
    } else if Within(d, inflation) {
      Bands(d.milli, inscribed, inflation);
    } else if Within(d, penalty) {
      Bands(d.milli, inflation, penalty);
    }
  }

  /** Costs never grow with the distance from the obstacles. */
  lemma Antitone(d: Dist, e: Dist, inscribed: nat, inflation: nat, penalty: nat)
    requires !e.Below(d)
    ensures CellCost(d, inscribed, inflation, penalty) >= CellCost(e, inscribed, inflation, penalty)
  {
    NeverLethal(e, inscribed, inflation, penalty);
    if Within(d, inscribed) || e.Infinite? {
    } else if Within(e, inflation) {
      InflatedAntitone(d.milli, e.milli, inscribed, inflation);
    } else if Within(e, penalty) {
      Bands(e.milli, inflation, penalty);
      if Within(d, inflation) {
        Bands(d.milli, inscribed, inflation);
      } else {
        NearWallAntitone(d.milli, e.milli, inflation, penalty);
      }
    }
  }

  lemma InflatedAntitone(m: nat, n: nat, inscribed: nat, inflation: nat)
    requires inscribed < inflation && m <= n
    requires inscribed as real < Cells(m) && Cells(n) <= inflation as real
    ensures Cells(m) <= Cells(n)
    ensures InflatedCost(m, inscribed, inflation) >= InflatedCost(n, inscribed, inflation)
  {
    RatioMonotone(m, n, inscribed, inflation);
    RatioBounds(m, inscribed, inflation);
    RatioBounds(n, inscribed, inflation);
    ToByteMonotone(204.0 * Ratio(m, inscribed, inflation), 204.0 * Ratio(n, inscribed, inflation));
  }

  lemma NearWallAntitone(m: nat, n: nat, inflation: nat, penalty: nat)
    requires inflation < penalty && m <= n
    ensures NearWallCost(m, inflation, penalty) >= NearWallCost(n, inflation, penalty)
  {
    RatioMonotone(m, n, inflation, penalty);
    var r, s := MaxReal(1.0 - Ratio(m, inflation, penalty), 0.0), MaxReal(1.0 - Ratio(n, inflation, penalty), 0.0);
    ToByteMonotone(50.0 * s, 50.0 * r);
  }

  /**
   Exactly which cells the planner may enter: those at least 1/204 of the safety margin beyond the inscribed
   radius. The sliver in between is inflated, but its cost still truncates to the inscribed cost.
   */
  lemma TraversableThreshold(milli: nat, inscribed: nat, inflation: nat, penalty: nat)
    requires inscribed <= inflation
    ensures CellCost(Finite(milli), inscribed, inflation, penalty) < INSCRIBED
      <==> milli > 1000 * inscribed && 204 * (milli - 1000 * inscribed) >= 1000 * (inflation - inscribed)
  {
    if Within(Finite(milli), inscribed) {
    } else if Within(Finite(milli), inflation) {
      RatioBounds(milli, inscribed, inflation);
      var p, q := Cells(milli) - inscribed as real, inflation as real - inscribed as real;
      var r := Ratio(milli, inscribed, inflation);
      assert r * q == p;
      ScaledRatio(r, p, q);
      assert 204.0 * p >= q <==> 204 * (milli - 1000 * inscribed) >= 1000 * (inflation - inscribed);
    } else {
      if Within(Finite(milli), penalty) {
        Bands(milli, inflation, penalty);
      }
    }
  }

  /** A cell 17 diagonal moves away is 24.038 cells off, beyond a radius of 24, and still not traversable. */
  lemma SliverBlocked()
    ensures Octile(Coord(0, 0), Coord(17, 17)) == 24038 > 1000 * 24
    ensures CellCost(Finite(24038), 24, 32, 40) == INSCRIBED
  {
    TraversableThreshold(24038, 24, 32, 40);
    NeverLethal(Finite(24038), 24, 32, 40);
  }

  /** At the default radii, three cells and a margin of two, no octile distance falls into the sliver. */
  lemma DefaultRadiiExact(a: Coord, b: Coord, penalty: nat)
    ensures CellCost(Finite(Octile(a, b)), 3, 5, penalty) < INSCRIBED <==> Octile(a, b) > 3000
  {
    TraversableThreshold(Octile(a, b), 3, 5, penalty);
  }

  lemma ScaledRatio(r: real, p: real, q: real)
    requires q > 0.0 && r * q == p
    ensures 204.0 * r >= 1.0 <==> 204.0 * p >= q
  {
    assert 204.0 * p - q == (204.0 * r - 1.0) * q;
  }

  // ----- the blocked loop -----

  /** The cost layer of one cell: lethal cells keep their mark. */
  function Layered(before: u8, d: Dist, inscribed: nat, inflation: nat, penalty: nat): u8 {
    if before == LETHAL then LETHAL else CellCost(d, inscribed, inflation, penalty)
  }

  /** Cells below `done` carry their layer, the others are untouched. */
  ghost predicate LayeredUpTo(costs: seq<u8>, before: seq<u8>, field: seq<Dist>, done: nat, inscribed: nat,
                              inflation: nat, penalty: nat)
    requires |costs| == |before| == |field|
  {
    forall i :: 0 <= i < |costs| ==>
      costs[i] == if i < done then Layered(before[i], field[i], inscribed, inflation, penalty) else before[i]
  }

  /**
   Whole blocks of four first, then the remaining cells one by one. `field` is only read; costs start out free
   or lethal.
   */
  method ApplyCostLayers(costs: array<u8>, field: array<Dist>, robotRadius: nat, safetyMargin: nat, wallPenalty: nat)
    requires costs.Length == field.Length
    requires forall i :: 0 <= i < costs.Length ==> costs[i] == FREE || costs[i] == LETHAL
    modifies costs
    ensures forall i :: 0 <= i < costs.Length ==>
      costs[i] == Layered(old(costs[i]), old(field[i]), robotRadius, robotRadius + safetyMargin, wallPenalty)
    ensures field[..] == old(field[..])
  {
    var inscribed, inflation := robotRadius, robotRadius + safetyMargin;
    ghost var before := costs[..];
    var total := costs.Length;
    var aligned := total / LANES * LANES;
    var i := 0;
    while i < aligned
      invariant 0 <= i <= aligned && i % LANES == 0
      invariant field[..] == old(field[..])
      invariant LayeredUpTo(costs[..], before, field[..], i, inscribed, inflation, wallPenalty)
    {
      assert i + 3 < aligned;
      if costs[i] == LETHAL || costs[i + 1] == LETHAL || costs[i + 2] == LETHAL || costs[i + 3] == LETHAL {
        CostMixedBlock(costs, field, before, i, LANES, inscribed, inflation, wallPenalty);
      } else {
        CostFreeBlock(costs, field, before, i, inscribed, inflation, wallPenalty);
      }
      i := i + LANES;
    }
    CostMixedBlock(costs, field, before, aligned, total - aligned, inscribed, inflation, wallPenalty);
  }

  /** Blocks with a lethal cell in them, and the tail: one cell at a time. */
  method CostMixedBlock(costs: array<u8>, field: array<Dist>, ghost before: seq<u8>, start: nat, count: nat,
                        inscribed: nat, inflation: nat, penalty: nat)
    requires costs.Length == field.Length == |before| && start + count <= costs.Length
    requires LayeredUpTo(costs[..], before, field[..], start, inscribed, inflation, penalty)
    modifies costs
    ensures LayeredUpTo(costs[..], before, field[..], start + count, inscribed, inflation, penalty)
    ensures field[..] == old(field[..])
  {
    for j := 0 to count
      invariant LayeredUpTo(costs[..], before, field[..], start + j, inscribed, inflation, penalty)
      invariant field[..] == old(field[..])
    {
      if costs[start + j] != LETHAL {
        costs[start + j] := CellCost(field[start + j], inscribed, inflation, penalty);
      }
    }
  }

  /** Blocks without a lethal cell: compare all four lanes first, then write; free lanes are left alone. */
  method CostFreeBlock(costs: array<u8>, field: array<Dist>, ghost before: seq<u8>, start: nat,
                       inscribed: nat, inflation: nat, penalty: nat)
    requires costs.Length == field.Length == |before| && start + LANES <= costs.Length
    requires forall i :: start <= i < start + LANES ==> costs[i] == FREE
    requires LayeredUpTo(costs[..], before, field[..], start, inscribed, inflation, penalty)
    modifies costs
    ensures LayeredUpTo(costs[..], before, field[..], start + LANES, inscribed, inflation, penalty)
    ensures field[..] == old(field[..])
  {
    var isInscribed := LanesWithin(field, start, inscribed);
    var isInflated := LanesWithin(field, start, inflation);
    var isNearWall := LanesWithin(field, start, penalty);
    for j := 0 to LANES
      invariant LayeredUpTo(costs[..], before, field[..], start + j, inscribed, inflation, penalty)
      invariant field[..] == old(field[..])
      invariant forall i :: start + j <= i < start + LANES ==> costs[i] == FREE
    {
      var d := field[start + j];
      if isInscribed[j] {
        costs[start + j] := INSCRIBED;
      } else if isInflated[j] {
        costs[start + j] := InflatedCost(d.milli, inscribed, inflation);
      } else if isNearWall[j] {
        costs[start + j] := NearWallCost(d.milli, inflation, penalty);
      }
    }
  }

  /** The four-lane comparison. */
  method LanesWithin(field: array<Dist>, start: nat, limit: nat) returns (mask: seq<bool>)
    requires start + LANES <= field.Length
    ensures |mask| == LANES && forall j :: 0 <= j < LANES ==> mask[j] == Within(field[start + j], limit)
  {
    mask := [Within(field[start], limit), Within(field[start + 1], limit),
             Within(field[start + 2], limit), Within(field[start + 3], limit)];
  }
}

/**
 The distance field: a first-in first-out label-correcting flood from the lethal cells.

 Distances are exact integers in thousandths of a cell (1000 straight, 1414 diagonal), and `Infinite`
 stands for the program's `f32::MAX`.
 */
module Brushfire {
  import opened Grids

  datatype Dist = Finite(milli: nat) | Infinite {
    predicate Below(other: Dist) {
      Finite? && (other.Infinite? || milli < other.milli)
    }

    predicate AtMost(bound: nat) {
      Finite? && milli <= bound
    }
  }

  /** Octile length between two cells: diagonal moves while both axes differ, then straight ones. */
  function Octile(a: Coord, b: Coord): nat {
    1000 * Max(Abs(a.x - b.x), Abs(a.y - b.y)) + 414 * Min(Abs(a.x - b.x), Abs(a.y - b.y))
  }

  /** Length of king move number `k` of `OFFSETS`. */
  function MoveLength(k: nat): nat {
    if k < 4 then 1000 else 1414
  }

  /** `d` is the octile distance from `c` to the nearest seed, infinite when there is none. */
  ghost predicate Nearest(seeds: set<Coord>, c: Coord, d: Dist) {
    match d
    case Infinite => seeds == {}
    case Finite(m) => Reached(seeds, c, m) && forall l :: l in seeds ==> m <= Octile(l, c)
  }

  /** Some seed is at most `m` away. */
  ghost predicate Reached(seeds: set<Coord>, c: Coord, m: nat) {
    exists l :: l in seeds && Octile(l, c) <= m
  }

  /** There is only one nearest distance. */
  lemma NearestUnique(seeds: set<Coord>, c: Coord, d: Dist, e: Dist)
    requires Nearest(seeds, c, d) && Nearest(seeds, c, e)
    ensures d == e
  {
    if d.Finite? && e.Finite? {
      var l :| l in seeds && Octile(l, c) <= d.milli;
      var l' :| l' in seeds && Octile(l', c) <= e.milli;
      assert d.milli <= Octile(l', c) && e.milli <= Octile(l, c);
    }
  }

  // ----- octile geometry -----

  /** One king move changes the octile length by at most the length of the move. */
  lemma OctileStep(l: Coord, c: Coord, k: nat)
    requires k < 8
    ensures Octile(l, Neighbor(c, k)) <= Octile(l, c) + MoveLength(k)
  {
  }

  lemma ReachedStep(seeds: set<Coord>, c: Coord, m: nat, k: nat)
    requires Reached(seeds, c, m) && k < 8
    ensures Reached(seeds, Neighbor(c, k), m + MoveLength(k))
  {
    var l :| l in seeds && Octile(l, c) <= m;
    OctileStep(l, c, k);
  }

  /** The king move from `c` towards `l`. */
  function Toward(c: Coord, l: Coord): Coord {
    Coord(if l.x < c.x then c.x - 1 else if l.x > c.x then c.x + 1 else c.x,
          if l.y < c.y then c.y - 1 else if l.y > c.y then c.y + 1 else c.y)
  }

  /** Stepping towards `l` uses up exactly the length of the move, so octile lengths are path lengths. */
  lemma OctileToward(c: Coord, l: Coord) returns (k: nat)
    requires c != l
    ensures k < 8 && Neighbor(Toward(c, l), k) == c
    ensures Octile(l, c) == Octile(l, Toward(c, l)) + MoveLength(k)
    ensures Chebyshev(l, Toward(c, l)) < Chebyshev(l, c)
  {
    k := NeighborIndex(Toward(c, l), c);
  }

  /** Octile length bounds Euclidean length: by Cauchy-Schwarz, 1171396 = 1000^2 + 414^2. */
  lemma OctileVersusEuclid(a: Coord, b: Coord)
    ensures Octile(a, b) * Octile(a, b) <= 1171396 * Euclid2(a, b)
  {
    var p, q := Abs(a.x - b.x), Abs(a.y - b.y);
    assert p * p + q * q == Euclid2(a, b);
    CauchySchwarz(p, q);
    CauchySchwarz(q, p);
  }

  lemma CauchySchwarz(m: int, n: int)
    ensures (1000 * m + 414 * n) * (1000 * m + 414 * n) <= 1171396 * (m * m + n * n)
  {
    var e := 414 * m - 1000 * n;
    SquareNonNegative(e);
    assert e * e == 171396 * (m * m) - 828000 * (m * n) + 1000000 * (n * n);
    assert (1000 * m + 414 * n) * (1000 * m + 414 * n) == 1000000 * (m * m) + 828000 * (m * n) + 171396 * (n * n);
  }

  // ----- the flood -----

  /** The field value of an in-grid cell. */
  function At(f: seq<Dist>, width: nat, height: nat, c: Coord): Dist
    requires |f| == width * height && InGrid(width, height, c)
  {
    IndexInRange(width, height, c);
    f[Index(width, c)]
  }

  /** Move `k` from `c` cannot improve the neighbour it leads to. */
  ghost predicate Settled(f: seq<Dist>, width: nat, height: nat, c: Coord, k: nat)
    requires |f| == width * height && InGrid(width, height, c) && k < 8
  {
    At(f, width, height, c).Finite? && InGrid(width, height, Neighbor(c, k)) ==>
      At(f, width, height, Neighbor(c, k)).AtMost(At(f, width, height, c).milli + MoveLength(k))
  }

  ghost predicate Relaxed(f: seq<Dist>, width: nat, height: nat, c: Coord, m: nat)
    requires |f| == width * height && InGrid(width, height, c) && m <= 8
  {
    forall k :: 0 <= k < m ==> Settled(f, width, height, c, k)
  }

  /** Seeds keep label zero and every other label is backed by a seed. */
  ghost predicate Backed(f: seq<Dist>, width: nat, height: nat, seeds: set<Coord>)
    requires |f| == width * height
  {
    && (forall c :: c in seeds ==> InGrid(width, height, c) && At(f, width, height, c) == Finite(0))
    && (forall c {:trigger Reached(seeds, c, At(f, width, height, c).milli)} ::
          InGrid(width, height, c) && At(f, width, height, c).Finite? ==>
             Reached(seeds, c, At(f, width, height, c).milli))
  }

  /** Only queued cells, and the one being expanded from move `m` on, may still improve a neighbour. */
  ghost predicate Pending(f: seq<Dist>, width: nat, height: nat, queue: seq<Coord>, current: Option<Coord>, m: nat)
    requires |f| == width * height
  {
    && m <= 8
    && (forall c :: c in queue ==> InGrid(width, height, c) && At(f, width, height, c).Finite?)
    && (current.Some? ==> InGrid(width, height, current.value) && Relaxed(f, width, height, current.value, m))
    && (forall c :: InGrid(width, height, c) && c !in queue && current != Some(c) ==> Relaxed(f, width, height, c, 8))
  }

  /** `g` is `f` with the label of `n` lowered to `d`. */
  ghost predicate Lowered(f: seq<Dist>, g: seq<Dist>, width: nat, height: nat, n: Coord, d: nat)
    requires |f| == |g| == width * height
  {
    && InGrid(width, height, n)
    && Finite(d).Below(At(f, width, height, n))
    && At(g, width, height, n) == Finite(d)
    && forall c :: InGrid(width, height, c) && c != n ==> At(g, width, height, c) == At(f, width, height, c)
  }

  lemma UpdateLowers(f: seq<Dist>, width: nat, height: nat, n: Coord, d: nat)
    requires |f| == width * height && InGrid(width, height, n)
    requires Finite(d).Below(At(f, width, height, n))
    ensures 0 <= Index(width, n) < |f|
    ensures Lowered(f, f[Index(width, n) := Finite(d)], width, height, n, d)
  {
    IndexInRange(width, height, n);
    var g := f[Index(width, n) := Finite(d)];
    forall c | InGrid(width, height, c) && c != n
      ensures At(g, width, height, c) == At(f, width, height, c)
    {
      IndexInRange(width, height, c);
      IndexInjective(width, c, n);
    }
  }

  lemma LoweredKeepsBacked(f: seq<Dist>, g: seq<Dist>, width: nat, height: nat, seeds: set<Coord>, c: Coord, k: nat)
    requires |f| == |g| == width * height && k < 8
    requires Backed(f, width, height, seeds) && InGrid(width, height, c) && At(f, width, height, c).Finite?
    requires Lowered(f, g, width, height, Neighbor(c, k), At(f, width, height, c).milli + MoveLength(k))
    ensures Backed(g, width, height, seeds)
  {
    assert Reached(seeds, c, At(f, width, height, c).milli);
    ReachedStep(seeds, c, At(f, width, height, c).milli, k);
    forall b | InGrid(width, height, b) && At(g, width, height, b).Finite?
      ensures Reached(seeds, b, At(g, width, height, b).milli)
    {
      assert b != Neighbor(c, k) && At(f, width, height, b).Finite? ==>
        Reached(seeds, b, At(f, width, height, b).milli);
    }
  }

  lemma LoweredKeepsSettled(f: seq<Dist>, g: seq<Dist>, width: nat, height: nat, n: Coord, d: nat, c: Coord, m: nat)
    requires |f| == |g| == width * height && m <= 8
    requires Lowered(f, g, width, height, n, d)
    requires InGrid(width, height, c) && c != n && Relaxed(f, width, height, c, m)
    ensures Relaxed(g, width, height, c, m)
  {
    forall k | 0 <= k < m
      ensures Settled(g, width, height, c, k)
    {
      assert Settled(f, width, height, c, k);
    }
  }

  lemma LoweredKeepsPending(f: seq<Dist>, g: seq<Dist>, width: nat, height: nat, queue: seq<Coord>, c: Coord, m: nat)
    requires |f| == |g| == width * height && m < 8
    requires Pending(f, width, height, queue, Some(c), m) && At(f, width, height, c).Finite?
    requires Lowered(f, g, width, height, Neighbor(c, m), At(f, width, height, c).milli + MoveLength(m))
    ensures Pending(g, width, height, queue + [Neighbor(c, m)], Some(c), m + 1)
  {
    var n, d := Neighbor(c, m), At(f, width, height, c).milli + MoveLength(m);
    assert n != c;
    LoweredKeepsSettled(f, g, width, height, n, d, c, m);
    assert Settled(g, width, height, c, m);
    forall b | InGrid(width, height, b) && b !in queue + [n] && b != c
      ensures Relaxed(g, width, height, b, 8)
    {
      assert b !in queue && b != n;
      LoweredKeepsSettled(f, g, width, height, n, d, b, 8);
    }
  }

  /** When the queue is empty every label is the distance to the nearest seed. */
  lemma {:induction false} FloodIsExact(f: seq<Dist>, width: nat, height: nat, seeds: set<Coord>, l: Coord, c: Coord)
    requires |f| == width * height
    requires Backed(f, width, height, seeds) && Pending(f, width, height, [], None, 0)
    requires l in seeds && InGrid(width, height, c)
    ensures At(f, width, height, c).AtMost(Octile(l, c))
    decreases Chebyshev(l, c)
  {
    if c != l {
      var k := OctileToward(c, l);
      var b := Toward(c, l);
      FloodIsExact(f, width, height, seeds, l, b);
      assert Relaxed(f, width, height, b, 8);
      assert Settled(f, width, height, b, k);
    }
  }

  // ----- termination -----

  function Unlabelled(f: seq<Dist>): nat {
    if f == [] then 0 else (if f[0].Infinite? then 1 else 0) + Unlabelled(f[1..])
  }

  function LabelSum(f: seq<Dist>): nat {
    if f == [] then 0 else (if f[0].Infinite? then 0 else f[0].milli) + LabelSum(f[1..])
  }

  lemma {:induction false} ImproveShrinks(f: seq<Dist>, i: nat, d: Dist)
    requires i < |f| && d.Below(f[i])
    ensures Unlabelled(f[i := d]) < Unlabelled(f)
      || (Unlabelled(f[i := d]) == Unlabelled(f) && LabelSum(f[i := d]) < LabelSum(f))
  {
    if i > 0 {
      assert f[i := d][1..] == f[1..][i - 1 := d];
      ImproveShrinks(f[1..], i - 1, d);
    } else {
      assert f[i := d][1..] == f[1..];
    }
  }

  /** Progress of the flood: labels only go down, and new labels appear. */
  ghost predicate Shrunk(f: seq<Dist>, g: seq<Dist>) {
    Unlabelled(g) < Unlabelled(f) || (Unlabelled(g) == Unlabelled(f) && LabelSum(g) < LabelSum(f))
  }

  /** When the queue is empty the whole field is exact. */
  lemma FloodIsNearest(f: seq<Dist>, width: nat, height: nat, seeds: set<Coord>, c: Coord)
    requires |f| == width * height && InGrid(width, height, c)
    requires Backed(f, width, height, seeds) && Pending(f, width, height, [], None, 0)
    ensures Nearest(seeds, c, At(f, width, height, c))
  {
    forall l | l in seeds
      ensures At(f, width, height, c).AtMost(Octile(l, c))
    {
      FloodIsExact(f, width, height, seeds, l, c);
    }
  }

  /**
   Flood `field` in place from the seeds, which carry label zero on entry while every other cell is unlabelled.
   Cells may be relabelled and queued again any number of times; the flood still ends, with exact distances.
   */
  method ComputeDistanceField(field: array<Dist>, width: nat, height: nat, seeds: seq<Coord>)
    requires field.Length == width * height
    requires forall c :: c in seeds ==> InGrid(width, height, c)
    requires forall c :: InGrid(width, height, c) ==>
      At(field[..], width, height, c) == if c in seeds then Finite(0) else Infinite
    modifies field
    ensures forall c :: InGrid(width, height, c) ==> Nearest((set l | l in seeds), c, At(field[..], width, height, c))
  {
    ghost var sources := set l | l in seeds;
    var queue := seeds;
    SeedsBacked(field[..], width, height, seeds);
    while queue != []
      invariant Backed(field[..], width, height, sources) && Pending(field[..], width, height, queue, None, 0)
      decreases Unlabelled(field[..]), LabelSum(field[..]), |queue|
    {
      var current := queue[0];
      assert queue == [current] + queue[1..];
      queue := Expand(field, width, height, sources, current, queue[1..]);
    }
    forall c | InGrid(width, height, c)
      ensures Nearest(sources, c, At(field[..], width, height, c))
    {
      FloodIsNearest(field[..], width, height, sources, c);
    }
  }

  lemma SeedsBacked(f: seq<Dist>, width: nat, height: nat, seeds: seq<Coord>)
    requires |f| == width * height
    requires forall c :: c in seeds ==> InGrid(width, height, c)
    requires forall c :: InGrid(width, height, c) ==>
      At(f, width, height, c) == if c in seeds then Finite(0) else Infinite
    ensures Backed(f, width, height, (set l | l in seeds)) && Pending(f, width, height, seeds, None, 0)
  {
    forall c | c in seeds
      ensures Reached((set l | l in seeds), c, 0)
    {
      assert Octile(c, c) == 0;
    }
  }

  /** The loop over the eight neighbours of the cell taken from the queue. */
  method Expand(field: array<Dist>, width: nat, height: nat, ghost seeds: set<Coord>, current: Coord,
                waiting: seq<Coord>)
    returns (queue: seq<Coord>)
    requires field.Length == width * height
    requires Backed(field[..], width, height, seeds) && Pending(field[..], width, height, waiting, Some(current), 0)
    requires At(field[..], width, height, current).Finite?
    modifies field
    ensures Backed(field[..], width, height, seeds) && Pending(field[..], width, height, queue, None, 0)
    ensures (field[..] == old(field[..]) && queue == waiting) || Shrunk(old(field[..]), field[..])
  {
    queue := waiting;
    IndexInRange(width, height, current);
    var currentDist := field[Index(width, current)].milli;
    for k := 0 to 8
      invariant Backed(field[..], width, height, seeds) && Pending(field[..], width, height, queue, Some(current), k)
      invariant At(field[..], width, height, current) == Finite(currentDist)
      invariant (field[..] == old(field[..]) && queue == waiting) || Shrunk(old(field[..]), field[..])
    {
      queue := Relax(field, width, height, seeds, current, currentDist, k, queue);
    }
  }

  /** One neighbour: skipped when outside the grid, relabelled and queued when the new label is lower. */
  method Relax(field: array<Dist>, width: nat, height: nat, ghost seeds: set<Coord>, current: Coord, currentDist: nat,
               k: nat,
               waiting: seq<Coord>)
    returns (queue: seq<Coord>)
    requires field.Length == width * height && k < 8
    requires Backed(field[..], width, height, seeds) && Pending(field[..], width, height, waiting, Some(current), k)
    requires At(field[..], width, height, current) == Finite(currentDist)
    modifies field
    ensures Backed(field[..], width, height, seeds) && Pending(field[..], width, height, queue, Some(current), k + 1)
    ensures At(field[..], width, height, current) == Finite(currentDist)
    ensures (field[..] == old(field[..]) && queue == waiting) || Shrunk(old(field[..]), field[..])
  {
    queue := waiting;
    var next := Neighbor(current, k);
    if !InGrid(width, height, next) {
      assert Settled(field[..], width, height, current, k);
      return;
    }
    IndexInRange(width, height, next);
    var i := Index(width, next);
    var d := Finite(currentDist + MoveLength(k));
    if d.Below(field[i]) {
      ghost var f := field[..];
      UpdateLowers(f, width, height, next, d.milli);
      field[i] := d;
      assert field[..] == f[i := d];
      LoweredKeepsBacked(f, field[..], width, height, seeds, current, k);
      LoweredKeepsPending(f, field[..], width, height, queue, current, k);
      ImproveShrinks(f, i, d);
      queue := queue + [next];
    } else {
      assert Settled(field[..], width, height, current, k);
    }
  }
}

/** Shared value types: options, grid coordinates, cell types and the row-major occupancy grid. */
module Grids {

  datatype Option<+T> = None | Some(value: T)

  datatype Coord = Coord(x: int, y: int)

  /** What the mapper knows about a cell; cells outside the grid read as `Unknown`. */
  datatype CellType = Unknown | Floor | Wall | Cliff | Bump {
    predicate IsObstacle() {
      Wall? || Cliff? || Bump?
    }
  }

  /** World coordinates in metres. */
  datatype Point = Point(x: real, y: real)

  datatype Pose = Pose(x: real, y: real, theta: real) {
    function At(): Point { Point(x, y) }
  }

  datatype RawGrid = RawGrid(width: nat, height: nat, resolution: real, origin: Point, cells: seq<CellType>)

  /** A grid stores one cell type for every position, row by row. */
  type Grid = g: RawGrid | |g.cells| == g.width * g.height && g.resolution > 0.0
    witness RawGrid(0, 0, 1.0, Point(0.0, 0.0), [])

  predicate InGrid(width: nat, height: nat, c: Coord) {
    0 <= c.x < width && 0 <= c.y < height
  }

  /** Flat position of a cell in row-major storage: y rows of `width` cells, then x. */
  function Index(width: nat, c: Coord): int {
    Rows(width, c.y) + c.x
  }

  /** The length of `y` rows; a product, written as a sum so that proofs stay linear. */
  function Rows(width: nat, y: int): nat {
    if y <= 0 then 0 else width + Rows(width, y - 1)
  }

  function GetType(g: Grid, c: Coord): CellType {
    if InGrid(g.width, g.height, c) then
      IndexInRange(g.width, g.height, c);
      g.cells[Index(g.width, c)]
    else
      Unknown
  }

  /** The cells the robot must stay away from: obstacles and everything not yet observed. */
  predicate Lethal(g: Grid, c: Coord) {
    InGrid(g.width, g.height, c) && (GetType(g, c).IsObstacle() || GetType(g, c) == Unknown)
  }

  function Abs(n: int): nat {
    if n < 0 then -n else n
  }

  function Max(a: int, b: int): int {
    if a < b then b else a
  }

  function Min(a: int, b: int): int {
    if a < b then a else b
  }

  function AbsReal(r: real): real {
    if r < 0.0 then -r else r
  }

  function MinReal(a: real, b: real): real {
    if a < b then a else b
  }

  function MaxReal(a: real, b: real): real {
    if a < b then b else a
  }

  /** Into [-limit, limit]. */
  function ClampReal(v: real, limit: real): real
    requires limit >= 0.0
  {
    if v < -limit then -limit else if v > limit then limit else v
  }

  function Chebyshev(a: Coord, b: Coord): nat {
    Max(Abs(a.x - b.x), Abs(a.y - b.y))
  }

  function Manhattan(a: Coord, b: Coord): nat {
    Abs(a.x - b.x) + Abs(a.y - b.y)
  }

  /** Squared Euclidean distance, in cells. */
  function Euclid2(a: Coord, b: Coord): nat {
    SquareNonNegative(a.x - b.x);
    SquareNonNegative(a.y - b.y);
    (a.x - b.x) * (a.x - b.x) + (a.y - b.y) * (a.y - b.y)
  }

  lemma SquareNonNegative(n: int)
    ensures n * n >= 0
  {
  }

  /** The eight king moves, in the order the planner and the search loops try them. */
  const OFFSETS: seq<Coord> :=
    [Coord(-1, 0), Coord(1, 0), Coord(0, -1), Coord(0, 1), Coord(-1, -1), Coord(1, -1), Coord(-1, 1), Coord(1, 1)]

  function Neighbor(c: Coord, k: nat): Coord
    requires k < 8
  {
    Coord(c.x + OFFSETS[k].x, c.y + OFFSETS[k].y)
  }

  predicate Adjacent(a: Coord, b: Coord) {
    Chebyshev(a, b) == 1
  }

  /** `Neighbor` enumerates exactly the cells one king move away. */
  lemma NeighborsAreAdjacent(a: Coord, b: Coord)
    ensures Adjacent(a, b) <==> exists k :: 0 <= k < 8 && Neighbor(a, k) == b
  {
    if Adjacent(a, b) {
      var k := NeighborIndex(a, b);
      assert Neighbor(a, k) == b;
    }
  }

  lemma NeighborIsAdjacent(a: Coord, k: nat)
    requires k < 8
    ensures Adjacent(a, Neighbor(a, k))
  {
  }

  function NeighborIndex(a: Coord, b: Coord): (k: nat)
    requires Adjacent(a, b)
    ensures k < 8 && Neighbor(a, k) == b
  {
    var dx, dy := b.x - a.x, b.y - a.y;
    if dy == 0 then (if dx < 0 then 0 else 1)
    else if dx == 0 then (if dy < 0 then 2 else 3)
    else if dy < 0 then (if dx < 0 then 4 else 5)
    else if dx < 0 then 6 else 7
  }

  // ----- row-major indexing -----

  lemma {:induction false} RowsIsProduct(width: nat, y: nat)
    ensures Rows(width, y) == y * width
  {
    if y > 0 {
      RowsIsProduct(width, y - 1);
      assert y * width == width + (y - 1) * width;
    }
  }

  /** The index is the program's y * width + x. */
  lemma IndexIsRowMajor(width: nat, c: Coord)
    requires c.y >= 0
    ensures Index(width, c) == c.y * width + c.x
  {
    RowsIsProduct(width, c.y);
  }

  lemma {:induction false} RowsGrow(width: nat, y: int, z: int)
    requires y < z && 0 < z
    ensures Rows(width, y) + (if y < 0 then 0 else width) <= Rows(width, z)
    decreases z
  {
    if y < z - 1 && 1 < z {
      RowsGrow(width, y, z - 1);
    }
  }

  lemma IndexInRange(width: nat, height: nat, c: Coord)
    requires InGrid(width, height, c)
    ensures 0 <= Index(width, c) < width * height
  {
    RowsGrow(width, c.y, height);
    RowsIsProduct(width, height);
  }

  lemma IndexInjective(width: nat, a: Coord, b: Coord)
    requires 0 <= a.x < width && 0 <= b.x < width && 0 <= a.y && 0 <= b.y
    ensures Index(width, a) == Index(width, b) ==> a == b
  {
    if a.y < b.y {
      RowsGrow(width, a.y, b.y);
    } else if b.y < a.y {
      RowsGrow(width, b.y, a.y);
    }
  }

  lemma MultipleBelowFactor(d: int, n: nat)
    requires d * n < n && 0 < d * n + n
    ensures d == 0
  {
    if d > 0 {
      MultipleAtLeastFactor(d, n);
    } else if d < 0 {
      MultipleAtLeastFactor(-d, n);
    }
  }

  lemma MultipleAtLeastFactor(d: int, n: nat)
    requires d >= 1
    ensures d * n >= n
  {
    assert d * n == (d - 1) * n + n;
  }

  /** The position stored at flat index `i`. */
  function Position(width: nat, i: nat): Coord
    requires width > 0
  {
    Coord(i % width, i / width)
  }

  lemma PositionInGrid(width: nat, height: nat, i: nat)
    requires i < width * height
    ensures width > 0 && InGrid(width, height, Position(width, i)) && Index(width, Position(width, i)) == i
  {
    var y := i / width;
    RowsIsProduct(width, y);
    assert (height - y) * width == height * width - y * width;
    if y >= height {
      assert (y - height) * width >= 0;
    }
  }

  // ----- counting -----

  /** A set of grid cells has at most width * height members. */
  lemma GridSetBound(width: nat, height: nat, s: set<Coord>)
    requires forall c :: c in s ==> InGrid(width, height, c)
    ensures |s| <= width * height
  {
    var indices := set c | c in s :: Index(width, c);
    forall c | c in s
      ensures 0 <= Index(width, c) < width * height
    {
      IndexInRange(width, height, c);
    }
    ImageSize(width, s, indices);
    RangeBound(width * height, indices);
  }

  lemma ImageSize(width: nat, s: set<Coord>, image: set<int>)
    requires forall c :: c in s ==> 0 <= c.x < width && 0 <= c.y
    requires image == set c | c in s :: Index(width, c)
    ensures |image| == |s|
  {
    if s != {} {
      var c :| c in s;
      var rest := s - {c};
      var image' := set d | d in rest :: Index(width, d);
      forall d | d in rest
        ensures Index(width, d) != Index(width, c)
      {
        if Index(width, d) == Index(width, c) {
          IndexInjective(width, c, d);
        }
      }
      assert image == image' + {Index(width, c)};
      ImageSize(width, rest, image');
    }
  }

  lemma RangeBound(n: nat, s: set<int>)
    requires forall i :: i in s ==> 0 <= i < n
    ensures |s| <= n
  {
    if n > 0 {
      RangeBound(n - 1, s - {n - 1});
    } else {
      assert forall i :: i !in s;
    }
  }
}

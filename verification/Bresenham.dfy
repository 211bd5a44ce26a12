/**
 The integer line walk used for line-of-sight tests and for averaging wall penalties.

 The program steps an error term; `Cell` below is the closed form: cell number k of the walk lies k/n of
 the way along the segment, each coordinate rounded to the nearest integer with ties towards the start.
 */
module Bresenham {
  import opened Grids

  /** Number of moves from `a` to `b`. */
  function Steps(a: Coord, b: Coord): nat {
    Chebyshev(a, b)
  }

  /** p/n rounded to the nearest integer, halves down; zero moves need no rounding. */
  function Round(p: int, n: nat): nat
    decreases if p < 0 then 0 else p
  {
    if n == 0 || 2 * p <= n then 0 else 1 + Round(p - n, n)
  }

  function Sign(from: int, to: int): int {
    if from < to then 1 else -1
  }

  /** `i` unit moves from one coordinate in the direction of another. */
  function Shift(from: int, to: int, i: int): int {
    if from < to then from + i else from - i
  }

  /** Cell number `k` of the walk from `a` to `b`. */
  function Cell(a: Coord, b: Coord, k: nat): Coord {
    var n := Steps(a, b);
    Coord(Shift(a.x, b.x, Round(Abs(b.x - a.x) * k, n)), Shift(a.y, b.y, Round(Abs(b.y - a.y) * k, n)))
  }

  /** The state of the program's loop: position and error term. */
  datatype Walker = Walker(x: int, y: int, err: int) {
    function At(): Coord { Coord(x, y) }
  }

  function Begin(a: Coord, b: Coord): Walker {
    Walker(a.x, a.y, Abs(b.x - a.x) - Abs(b.y - a.y))
  }

  /** One pass through the loop: the two tests look at the error term as it was on entry. */
  function Advance(w: Walker, a: Coord, b: Coord): Walker {
    var dx: int, dy: int := Abs(b.x - a.x), Abs(b.y - a.y);
    var e2 := 2 * w.err;
    var w1 := if e2 > -dy then w.(err := w.err - dy, x := w.x + Sign(a.x, b.x)) else w;
    if e2 < dx then w1.(err := w1.err + dx, y := w1.y + Sign(a.y, b.y)) else w1
  }

  /** `i` is p/n rounded with halves down. */
  ghost predicate Rounded(p: int, n: int, i: int) {
    n > 0 && 0 <= 2 * (n * i - p) + n && 2 * (n * i - p) < n
  }

  lemma {:induction false} RoundIsRounded(p: nat, n: nat, i: int)
    requires n > 0
    ensures Rounded(p, n, i) <==> i == Round(p, n)
  {
    var r := Round(p, n);
    RoundSatisfies(p, n);
    if Rounded(p, n, i) {
      assert (i - r) * n == n * i - n * r;
      MultipleBelowFactor(i - r, n);
    }
  }

  lemma {:induction false} RoundSatisfies(p: int, n: nat)
    requires n > 0 && 2 * p > -(n as int)
    ensures Rounded(p, n, Round(p, n))
    decreases if p < 0 then 0 else p
  {
    if 2 * p > n {
      RoundSatisfies(p - n, n);
      assert n * (1 + Round(p - n, n)) == n + n * Round(p - n, n);
    }
  }

  /** Rounding moves on by at most one when p grows by at most n. */
  lemma NextRound(p: nat, d: nat, n: nat, j: int)
    requires 0 < n && d <= n && j == Round(p, n)
    ensures Rounded(p, n, j)
    ensures Round(p + d, n) == if 2 * (n * j - p) < 2 * d - n then j + 1 else j
  {
    RoundIsRounded(p, n, j);
    var next := if 2 * (n * j - p) < 2 * d - n then j + 1 else j;
    NextRounded(p, d, n, j);
    RoundIsRounded(p + d, n, next);
  }

  lemma NextRounded(p: int, d: int, n: int, j: int)
    requires Rounded(p, n, j) && 0 <= d <= n
    ensures Rounded(p + d, n, if 2 * (n * j - p) < 2 * d - n then j + 1 else j)
  {
    Distribute(n, j);
  }

  lemma Distribute(d: int, k: int)
    ensures d * (k + 1) == d * k + d
  {
  }

  /**
   The loop invariant: after `k` passes the coordinate with the longer side has made k moves, the other one
   as many as rounding asks for, and the error term is the cross product of the two.
   */
  ghost predicate AtCell(w: Walker, a: Coord, b: Coord, k: nat) {
    var dx, dy := Abs(b.x - a.x), Abs(b.y - a.y);
    && k <= Steps(a, b)
    && if dx >= dy then
         var j := Round(dy * k, dx);
         w == Walker(Shift(a.x, b.x, k), Shift(a.y, b.y, j), dx - dy + (dx * j - dy * k))
       else
         var i := Round(dx * k, dy);
         w == Walker(Shift(a.x, b.x, i), Shift(a.y, b.y, k), dx - dy + (dx * k - dy * i))
  }

  lemma BeginAtCell(a: Coord, b: Coord)
    ensures AtCell(Begin(a, b), a, b, 0)
  {
  }

  /** The coordinate with the longer side moves on every step; the shorter one follows by rounding. */
  lemma MajorRound(n: nat, k: nat)
    requires n > 0
    ensures Round(n * k, n) == k
  {
    RoundIsRounded(n * k, n, k);
  }

  lemma AdvanceToNextCell(w: Walker, a: Coord, b: Coord, k: nat)
    requires AtCell(w, a, b, k) && k < Steps(a, b)
    ensures AtCell(Advance(w, a, b), a, b, k + 1)
  {
    var dx, dy := Abs(b.x - a.x), Abs(b.y - a.y);
    if dx >= dy {
      var p := SlowProduct(dx, dy, k);
      AdvanceMajorX(w, a, b, k, p, Round(p, dx));
    } else {
      var p := SlowProduct(dy, dx, k);
      AdvanceMajorY(w, a, b, k, p, Round(p, dy));
    }
  }

  lemma SlowProduct(fast: nat, slow: nat, k: nat) returns (p: nat)
    requires fast > 0
    ensures p == slow * k && p + slow == slow * (k + 1)
    ensures fast == slow ==> fast * Round(p, fast) == p
  {
    p := slow * k;
    Distribute(slow, k);
    MajorRound(fast, k);
  }

  /** The walker's position is the closed form. */
  lemma AtCellPosition(w: Walker, a: Coord, b: Coord, k: nat)
    requires AtCell(w, a, b, k)
    ensures k <= Steps(a, b) && w.At() == Cell(a, b, k)
  {
    if Steps(a, b) > 0 {
      MajorRound(Steps(a, b), k);
    }
  }

  /** The walk starts at `a`, ends at `b`, and meets `b` nowhere earlier, so both coordinates arrive together. */
  lemma Endpoints(a: Coord, b: Coord, k: nat)
    requires k <= Steps(a, b)
    ensures Cell(a, b, 0) == a
    ensures Cell(a, b, k) == b <==> k == Steps(a, b)
  {
    var n := Steps(a, b);
    if n > 0 {
      MajorRound(n, k);
      LastRound(n, Abs(b.x - a.x));
      LastRound(n, Abs(b.y - a.y));
    }
  }

  lemma LastRound(n: nat, d: nat)
    requires n > 0
    ensures Round(d * n, n) == d
  {
    MajorRound(n, d);
    assert d * n == n * d;
  }

  /** Consecutive cells are one king move apart. */
  lemma KingMoves(a: Coord, b: Coord, k: nat)
    requires k < Steps(a, b)
    ensures Adjacent(Cell(a, b, k), Cell(a, b, k + 1))
  {
    var n, dx, dy := Steps(a, b), Abs(b.x - a.x), Abs(b.y - a.y);
    MajorRound(n, k);
    MajorRound(n, k + 1);
    RoundAdvances(dx, n, k);
    RoundAdvances(dy, n, k);
  }

  /** From one move to the next a coordinate stays or moves by one. */
  lemma RoundAdvances(d: nat, n: nat, k: nat)
    requires 0 < n && d <= n
    ensures Round(d * k, n) <= Round(d * (k + 1), n) <= Round(d * k, n) + 1
  {
    Distribute(d, k);
    NextRound(d * k, d, n, Round(d * k, n));
  }

  /** The walk never leaves the bounding box of its two ends. */
  lemma InsideBox(a: Coord, b: Coord, k: nat)
    requires k <= Steps(a, b)
    ensures Min(a.x, b.x) <= Cell(a, b, k).x <= Max(a.x, b.x)
    ensures Min(a.y, b.y) <= Cell(a, b, k).y <= Max(a.y, b.y)
  {
    var n := Steps(a, b);
    PartialProduct(Abs(b.x - a.x), k, n);
    PartialProduct(Abs(b.y - a.y), k, n);
    RoundAtMost(Abs(b.x - a.x) * k, Abs(b.x - a.x), n);
    RoundAtMost(Abs(b.y - a.y) * k, Abs(b.y - a.y), n);
  }

  lemma PartialProduct(d: nat, k: nat, n: nat)
    requires k <= n
    ensures 0 <= d * k <= d * n
  {
    assert d * n == d * k + d * (n - k);
  }

  lemma {:induction false} RoundAtMost(p: int, d: nat, n: nat)
    requires p <= d * n
    ensures Round(p, n) <= d
    decreases if p < 0 then 0 else p
  {
    if n > 0 && 2 * p > n {
      assert (d - 1) * n == d * n - n;
      RoundAtMost(p - n, d - 1, n);
    }
  }

  /**
   How far off the ideal line a cell may be: the cross product of the exact and the walked direction never
   exceeds half the number of moves.
   */
  lemma NearLine(a: Coord, b: Coord, k: nat)
    requires k <= Steps(a, b)
    ensures var dx, dy, c := Abs(b.x - a.x), Abs(b.y - a.y), Cell(a, b, k);
      Abs(2 * (dx * Abs(c.y - a.y) - dy * Abs(c.x - a.x))) <= Steps(a, b)
  {
    var dx, dy := Abs(b.x - a.x), Abs(b.y - a.y);
    if dx > 0 || dy > 0 {
      if dx >= dy {
        MajorRound(dx, k);
        RoundIsRounded(dy * k, dx, Round(dy * k, dx));
      } else {
        MajorRound(dy, k);
        RoundIsRounded(dx * k, dy, Round(dx * k, dy));
      }
    }
  }

  lemma AdvanceMajorX(w: Walker, a: Coord, b: Coord, k: nat, p: nat, j: int)
    requires var dx, dy := Abs(b.x - a.x), Abs(b.y - a.y);
      && dx >= dy && dx > 0 && j == Round(p, dx) && (dx == dy ==> dx * j == p)
      && w == Walker(Shift(a.x, b.x, k), Shift(a.y, b.y, j), dx - dy + (dx * j - p))
    ensures var dx, dy := Abs(b.x - a.x), Abs(b.y - a.y);
      var j' := Round(p + dy, dx);
      Advance(w, a, b) == Walker(Shift(a.x, b.x, k + 1), Shift(a.y, b.y, j'), dx - dy + (dx * j' - (p + dy)))
  {
    NextRound(p, Abs(b.y - a.y), Abs(b.x - a.x), j);
    Distribute(Abs(b.x - a.x), j);
  }

  lemma AdvanceMajorY(w: Walker, a: Coord, b: Coord, k: nat, p: nat, i: int)
    requires var dx, dy := Abs(b.x - a.x), Abs(b.y - a.y);
      && dy > dx && i == Round(p, dy)
      && w == Walker(Shift(a.x, b.x, i), Shift(a.y, b.y, k), dx - dy + (p - dy * i))
    ensures var dx, dy := Abs(b.x - a.x), Abs(b.y - a.y);
      var i' := Round(p + dx, dy);
      Advance(w, a, b) == Walker(Shift(a.x, b.x, i'), Shift(a.y, b.y, k + 1), dx - dy + (p + dx - dy * i'))
  {
    NextRound(p, Abs(b.x - a.x), Abs(b.y - a.y), i);
    Distribute(Abs(b.y - a.y), i);
  }
}

/** Connectedness of cells by chains of small steps: frontier cells in clusters, traversable cells under king moves. */
module Chains {
  import opened Grids

  /** Close enough to belong together: at most `d` apart along each axis. */
  predicate Linked(a: Coord, b: Coord, d: int) {
    Abs(a.x - b.x) <= d && Abs(a.y - b.y) <= d
  }

  ghost predicate Chain(cells: set<Coord>, d: int, s: seq<Coord>) {
    && s != []
    && (forall i :: 0 <= i < |s| ==> s[i] in cells)
    && (forall i :: 0 < i < |s| ==> Linked(s[i - 1], s[i], d))
  }

  /** A chain of cells with steps of at most `d` per axis joins the two. */
  ghost predicate Connected(cells: set<Coord>, d: int, a: Coord, b: Coord) {
    exists s :: Chain(cells, d, s) && s[0] == a && s[|s| - 1] == b
  }

  lemma ConnectedSelf(cells: set<Coord>, d: int, a: Coord)
    requires a in cells
    ensures Connected(cells, d, a, a)
  {
    assert Chain(cells, d, [a]);
  }

  lemma ConnectedLink(cells: set<Coord>, d: int, a: Coord, b: Coord, c: Coord)
    requires Connected(cells, d, a, b) && Linked(b, c, d) && c in cells
    ensures Connected(cells, d, a, c)
  {
    var s :| Chain(cells, d, s) && s[0] == a && s[|s| - 1] == b;
    var t := s + [c];
    assert Chain(cells, d, t) && t[0] == a && t[|t| - 1] == c;
  }

  lemma ConnectedSymmetric(cells: set<Coord>, d: int, a: Coord, b: Coord)
    requires Connected(cells, d, a, b)
    ensures Connected(cells, d, b, a)
  {
    var s :| Chain(cells, d, s) && s[0] == a && s[|s| - 1] == b;
    var t := seq(|s|, i requires 0 <= i < |s| => s[|s| - 1 - i]);
    forall i | 0 < i < |t|
      ensures Linked(t[i - 1], t[i], d)
    {
      assert Linked(s[|s| - 1 - i], s[|s| - i], d);
    }
    assert Chain(cells, d, t) && t[0] == b && t[|t| - 1] == a;
  }

  lemma ConnectedTransitive(cells: set<Coord>, d: int, a: Coord, b: Coord, c: Coord)
    requires Connected(cells, d, a, b) && Connected(cells, d, b, c)
    ensures Connected(cells, d, a, c)
  {
    var s :| Chain(cells, d, s) && s[0] == a && s[|s| - 1] == b;
    var t :| Chain(cells, d, t) && t[0] == b && t[|t| - 1] == c;
    var u := s + t[1..];
    assert Chain(cells, d, u) && u[0] == a && u[|u| - 1] == c;
  }

  /** `part` contains every cell linked to one of its members. */
  ghost predicate Closed(cells: set<Coord>, d: int, part: set<Coord>) {
    forall a, b :: a in part && b in cells && Linked(a, b, d) ==> b in part
  }

  lemma {:induction false} ChainStays(cells: set<Coord>, d: int, part: set<Coord>, s: seq<Coord>)
    requires Closed(cells, d, part) && Chain(cells, d, s) && s[0] in part
    ensures s[|s| - 1] in part
    decreases |s|
  {
    if |s| > 1 {
      var t := s[..|s| - 1];
      assert Chain(cells, d, t);
      ChainStays(cells, d, part, t);
    }
  }

  lemma ConnectedStays(cells: set<Coord>, d: int, part: set<Coord>, a: Coord, b: Coord)
    requires Closed(cells, d, part) && a in part && Connected(cells, d, a, b)
    ensures b in part
  {
    var s :| Chain(cells, d, s) && s[0] == a && s[|s| - 1] == b;
    ChainStays(cells, d, part, s);
  }
}

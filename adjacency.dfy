/**
 * The grid's coordinates and its neighbourhood relation
 * (Grid.getAdjacentCells in src/mlap_prog/Grid.java).  Every loop of the
 * source over `cells[i][j]` visits the cells row by row; `Positions` is that
 * visiting order.
 */
module Adjacency {
  import opened Sums
  import opened Cells

  predicate InGrid(rows: int, cols: int, p: Pos)
  {
    0 <= p.x < rows && 0 <= p.y < cols
  }

  /** The cells of row x, left to right. */
  function GridRow(x: int, cols: nat): (r: seq<Pos>)
    ensures |r| == cols
    ensures forall k :: 0 <= k < cols ==> r[k] == Pos(x, k)
  {
    if cols == 0 then [] else GridRow(x, cols - 1) + [Pos(x, cols - 1)]
  }

  /** The first `rows` rows of the grid, row by row: the order of the source's
      nested `for i` / `for j` loops. */
  function Positions(rows: nat, cols: nat): seq<Pos>
  {
    if rows == 0 then [] else Positions(rows - 1, cols) + GridRow(rows - 1, cols)
  }

  /** p comes before cell (i, j) when the grid is visited row by row. */
  predicate Before(p: Pos, i: int, j: int)
  {
    p.x < i || (p.x == i && p.y < j)
  }

  /** Some grid cell visited before cell (i, j) satisfies f. */
  ghost predicate SomeBefore(f: Pos -> bool, rows: int, cols: int, i: int, j: int)
  {
    exists q :: InGrid(rows, cols, q) && Before(q, i, j) && f(q)
  }

  /** Visiting cell (i, j) adds its own case. */
  lemma SomeBeforeStep(f: Pos -> bool, rows: int, cols: int, i: int, j: int)
    requires 0 <= i < rows && 0 <= j < cols
    ensures SomeBefore(f, rows, cols, i, j + 1) == (SomeBefore(f, rows, cols, i, j) || f(Pos(i, j)))
  {
    if SomeBefore(f, rows, cols, i, j + 1) && !f(Pos(i, j)) {
      var q :| InGrid(rows, cols, q) && Before(q, i, j + 1) && f(q);
      assert q != Pos(i, j);
    }
    if f(Pos(i, j)) {
      assert InGrid(rows, cols, Pos(i, j)) && Before(Pos(i, j), i, j + 1);
    }
  }

  /** The end of one row is the start of the next. */
  lemma SomeBeforeRow(f: Pos -> bool, rows: int, cols: int, i: int)
    ensures SomeBefore(f, rows, cols, i + 1, 0) == SomeBefore(f, rows, cols, i, cols)
  {
  }

  /** After the last row, every cell has been visited. */
  lemma SomeBeforeAll(f: Pos -> bool, rows: nat, cols: nat)
    ensures SomeBefore(f, rows, cols, rows, 0) == exists q :: q in PosSet(rows, cols) && f(q)
  {
    forall q ensures q in PosSet(rows, cols) <==> InGrid(rows, cols, q) {
      PosSetMembers(rows, cols, q);
    }
  }

  /** The set of grid cells. */
  function PosSet(rows: nat, cols: nat): set<Pos>
  {
    set x, y | 0 <= x < rows && 0 <= y < cols :: Pos(x, y)
  }

  lemma {:induction false} PositionsMembers(rows: nat, cols: nat, p: Pos)
    ensures p in Positions(rows, cols) <==> InGrid(rows, cols, p)
  {
    if rows > 0 {
      PositionsMembers(rows - 1, cols, p);
      if InGrid(rows, cols, p) && p.x == rows - 1 {
        assert GridRow(rows - 1, cols)[p.y] == p;
      }
    }
  }

  /** One entry per cell. */
  lemma {:induction false} PositionsLength(rows: nat, cols: nat)
    ensures |Positions(rows, cols)| == rows * cols
  {
    if rows > 0 {
      PositionsLength(rows - 1, cols);
      assert (rows - 1) * cols + cols == rows * cols;
    }
  }

  lemma PosSetMembers(rows: nat, cols: nat, p: Pos)
    ensures p in PosSet(rows, cols) <==> InGrid(rows, cols, p)
  {
    if InGrid(rows, cols, p) {
      assert Pos(p.x, p.y) == p;
    }
  }

  /** Every grid cell is visited exactly once. */
  lemma {:induction false} PositionsDistinct(rows: nat, cols: nat)
    ensures Distinct(Positions(rows, cols))
  {
    if rows > 0 {
      PositionsDistinct(rows - 1, cols);
      var a, b := Positions(rows - 1, cols), GridRow(rows - 1, cols);
      forall i, j | 0 <= i < j < |a + b| ensures (a + b)[i] != (a + b)[j] {
        if i < |a| && j >= |a| {
          PositionsMembers(rows - 1, cols, a[i]);
        }
      }
    }
  }

  lemma PositionsAsSet(rows: nat, cols: nat)
    ensures (set p | p in Positions(rows, cols)) == PosSet(rows, cols)
  {
    forall p ensures p in Positions(rows, cols) <==> p in PosSet(rows, cols) {
      PositionsMembers(rows, cols, p);
      PosSetMembers(rows, cols, p);
    }
  }

  /** Every grid cell is a key of the map. */
  ghost predicate Covers(rows: int, cols: int, m: map<Pos, real>)
  {
    forall p :: InGrid(rows, cols, p) ==> p in m
  }

  /** Every key of the map is a grid cell. */
  ghost predicate Within(rows: int, cols: int, m: map<Pos, real>)
  {
    forall p :: p in m ==> InGrid(rows, cols, p)
  }

  /** The four orthogonal neighbour positions in the order the source tries
      them: down a row, up a row, right, left. */
  function Candidates(p: Pos): seq<Pos>
  {
    [Pos(p.x + 1, p.y), Pos(p.x - 1, p.y), Pos(p.x, p.y + 1), Pos(p.x, p.y - 1)]
  }

  /** The elements of xs that lie in the grid, in their order. */
  function KeepInGrid(rows: int, cols: int, xs: seq<Pos>): (r: seq<Pos>)
  {
    if xs == [] then []
    else (if InGrid(rows, cols, xs[0]) then [xs[0]] else []) + KeepInGrid(rows, cols, xs[1..])
  }

  function Distance(u: int, v: int): nat
  {
    if u < v then v - u else u - v
  }

  function Manhattan(a: Pos, b: Pos): nat
  {
    Distance(a.x, b.x) + Distance(a.y, b.y)
  }

  /** KeepInGrid on a list of four, unfolded. */
  lemma KeepInGridOfFour(rows: int, cols: int, a: Pos, b: Pos, c: Pos, d: Pos)
    ensures KeepInGrid(rows, cols, [a, b, c, d]) ==
      (if InGrid(rows, cols, a) then [a] else []) + (if InGrid(rows, cols, b) then [b] else []) +
      (if InGrid(rows, cols, c) then [c] else []) + (if InGrid(rows, cols, d) then [d] else [])
  {
    var k := (q: Pos) => if InGrid(rows, cols, q) then [q] else [];
    assert [a, b, c, d][1..] == [b, c, d];
    assert [b, c, d][1..] == [c, d];
    assert [c, d][1..] == [d];
    assert [d][1..] == [];
    assert KeepInGrid(rows, cols, [d]) == k(d);
    assert KeepInGrid(rows, cols, [c, d]) == k(c) + k(d);
    assert KeepInGrid(rows, cols, [b, c, d]) == k(b) + (k(c) + k(d));
  }

  /** getAdjacentCells: each neighbour is added when the bound test on the
      cell's own coordinate passes. */
  function AdjacentCells(rows: int, cols: int, p: Pos): (r: seq<Pos>)
    requires InGrid(rows, cols, p)
    ensures |r| <= 4
  {
    var maxX, maxY := rows - 1, cols - 1;
    (if p.x < maxX then [Pos(p.x + 1, p.y)] else []) +
    (if p.x > 0 then [Pos(p.x - 1, p.y)] else []) +
    (if p.y < maxY then [Pos(p.x, p.y + 1)] else []) +
    (if p.y > 0 then [Pos(p.x, p.y - 1)] else [])
  }

  /** The source's coordinate tests keep exactly the candidates that lie in
      the grid, in the order they are tried. */
  lemma AdjacentKeepsCandidates(rows: int, cols: int, p: Pos)
    requires InGrid(rows, cols, p)
    ensures AdjacentCells(rows, cols, p) == KeepInGrid(rows, cols, Candidates(p))
  {
    KeepInGridOfFour(rows, cols, Pos(p.x + 1, p.y), Pos(p.x - 1, p.y), Pos(p.x, p.y + 1), Pos(p.x, p.y - 1));
  }

  /** Every neighbour is a grid cell other than p, listed once. */
  lemma AdjacentInGrid(rows: int, cols: int, p: Pos)
    requires InGrid(rows, cols, p)
    ensures forall q :: q in AdjacentCells(rows, cols, p) ==> InGrid(rows, cols, q) && q != p
    ensures Distinct(AdjacentCells(rows, cols, p))
  {
  }

  /** The neighbours are exactly the grid cells at Manhattan distance one. */
  lemma AdjacentIffDistanceOne(rows: int, cols: int, p: Pos, q: Pos)
    requires InGrid(rows, cols, p)
    ensures q in AdjacentCells(rows, cols, p) <==> InGrid(rows, cols, q) && Manhattan(p, q) == 1
  {
  }

  /** Adjacency is symmetric. */
  lemma AdjacencySymmetric(rows: int, cols: int, p: Pos, q: Pos)
    requires InGrid(rows, cols, p) && InGrid(rows, cols, q)
    ensures q in AdjacentCells(rows, cols, p) <==> p in AdjacentCells(rows, cols, q)
  {
    AdjacentIffDistanceOne(rows, cols, p, q);
    AdjacentIffDistanceOne(rows, cols, q, p);
  }
}

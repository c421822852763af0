/**
 * The two ways the grid's parameters are first set, makeGridUniform and
 * makeGridWalls in src/mlap_prog/Grid.java, stated as the parameters each
 * leaves, with what makes them distributions.  makeGridWalls' calls of
 * Random.nextInt(100) are given as the stream `draw`: draw(k) is what the
 * k-th call returns.
 */
module Setup {
  import opened Sums
  import opened Cells
  import opened Adjacency
  import opened Walls
  import opened Inference

  /** The transitions stored for cell p, or none. */
  function TransOf(P: Params, p: Pos): map<Pos, real>
  {
    if p in P.trans then P.trans[p] else map[]
  }

  /** The emissions stored for cell p, or none. */
  function EmissionsOf(P: Params, p: Pos): map<int, real>
  {
    if p in P.emission then P.emission[p] else map[]
  }

  // ---------------------------------------------------------------------
  // Writing one value per target, row by row (the loops over k and l).

  /** m is m0 with v(q) stored for every grid cell q before (k, l). */
  ghost predicate FilledUpTo(m: map<Pos, real>, m0: map<Pos, real>, rows: int, cols: int, v: Pos -> real, k: int, l: int)
  {
    (forall q :: q in m <==> q in m0 || (InGrid(rows, cols, q) && Before(q, k, l))) &&
    (forall q :: q in m ==> m[q] == if InGrid(rows, cols, q) && Before(q, k, l) then v(q) else m0[q])
  }

  lemma FilledStart(m0: map<Pos, real>, rows: int, cols: int, v: Pos -> real)
    ensures FilledUpTo(m0, m0, rows, cols, v, 0, 0)
  {
  }

  lemma FilledStep(m: map<Pos, real>, m0: map<Pos, real>, rows: int, cols: int, v: Pos -> real, k: int, l: int)
    requires 0 <= k < rows && 0 <= l < cols && FilledUpTo(m, m0, rows, cols, v, k, l)
    ensures FilledUpTo(m[Pos(k, l) := v(Pos(k, l))], m0, rows, cols, v, k, l + 1)
  {
  }

  lemma FilledRow(m: map<Pos, real>, m0: map<Pos, real>, rows: int, cols: int, v: Pos -> real, k: int)
    requires FilledUpTo(m, m0, rows, cols, v, k, cols)
    ensures FilledUpTo(m, m0, rows, cols, v, k + 1, 0)
  {
  }

  /** After the last row every grid cell holds its value. */
  lemma FilledEnd(m: map<Pos, real>, m0: map<Pos, real>, rows: nat, cols: nat, v: Pos -> real)
    requires FilledUpTo(m, m0, rows, cols, v, rows, 0)
    ensures m == m0 + map q | q in PosSet(rows, cols) :: v(q)
  {
    forall q ensures q in PosSet(rows, cols) <==> InGrid(rows, cols, q) {
      PosSetMembers(rows, cols, q);
    }
  }

  // ---------------------------------------------------------------------
  // makeGridUniform

  /** 1.0/(rows*columns): every cell's share. */
  function UniformShare(rows: nat, cols: nat): real
  {
    Div(1.0, (rows * cols) as real)
  }

  const Third: real := 1.0 / 3.0

  /** The same share for every target in the grid. */
  function UniformRow(rows: nat, cols: nat): map<Pos, real>
  {
    map q | q in PosSet(rows, cols) :: UniformShare(rows, cols)
  }

  /** A third for each of the rewards -1, 0 and 1; any other reward keeps
      what it had, as setEmissionProb only puts the three keys. */
  function UniformEmissions(m: map<int, real>): map<int, real>
  {
    m[-1 := Third][0 := Third][1 := Third]
  }

  /** The parameters makeGridUniform leaves, from parameters P: targets
      outside the grid keep their stored transitions. */
  function Uniform(P: Params, rows: nat, cols: nat): Params
  {
    Params(map p | p in PosSet(rows, cols) :: UniformShare(rows, cols),
           map p | p in PosSet(rows, cols) :: TransOf(P, p) + UniformRow(rows, cols),
           map p | p in PosSet(rows, cols) :: UniformEmissions(EmissionsOf(P, p)))
  }

  /** n shares of 1/n make one. */
  lemma SharesMakeOne(xs: seq<Pos>, f: Pos -> real, rows: nat, cols: nat)
    requires |xs| == rows * cols && rows > 0 && cols > 0
    requires forall q :: q in xs ==> f(q) == UniformShare(rows, cols)
    ensures Sum(xs, f) == 1.0
  {
    SumConst(xs, f, UniformShare(rows, cols));
    assert rows * cols >= 1 by {
      assert rows * cols >= 1 * cols;
    }
  }

  /** The uniform initial distribution sums to one. */
  lemma UniformInitialSumsToOne(P: Params, rows: nat, cols: nat)
    requires rows > 0 && cols > 0
    ensures Sum(Positions(rows, cols), q => Init(Uniform(P, rows, cols), q)) == 1.0
  {
    var Q := Uniform(P, rows, cols);
    forall q | q in Positions(rows, cols) ensures Init(Q, q) == UniformShare(rows, cols) {
      PositionsMembers(rows, cols, q);
      PosSetMembers(rows, cols, q);
    }
    PositionsLength(rows, cols);
    SharesMakeOne(Positions(rows, cols), q => Init(Q, q), rows, cols);
  }

  /** Every cell's uniform transition row sums to one over the grid. */
  lemma UniformRowSumsToOne(P: Params, rows: nat, cols: nat, p: Pos)
    requires InGrid(rows, cols, p)
    ensures Sum(Positions(rows, cols), q => Tr(Uniform(P, rows, cols), p, q)) == 1.0
  {
    var Q := Uniform(P, rows, cols);
    PosSetMembers(rows, cols, p);
    forall q | q in Positions(rows, cols) ensures Tr(Q, p, q) == UniformShare(rows, cols) {
      PositionsMembers(rows, cols, q);
      PosSetMembers(rows, cols, q);
    }
    PositionsLength(rows, cols);
    SharesMakeOne(Positions(rows, cols), q => Tr(Q, p, q), rows, cols);
  }

  /** The three rewards of a grid cell share its emission evenly. */
  lemma UniformEmissionsSumToOne(P: Params, rows: nat, cols: nat, p: Pos)
    requires InGrid(rows, cols, p)
    ensures var Q := Uniform(P, rows, cols);
      Em(Q, p, -1) == Em(Q, p, 0) == Em(Q, p, 1) && Em(Q, p, -1) + Em(Q, p, 0) + Em(Q, p, 1) == 1.0
  {
    PosSetMembers(rows, cols, p);
  }

  /** Every transition and every emission of the three rewards that the
      recurrences look up is stored, for either topology. */
  lemma UniformReady(P: Params, rows: nat, cols: nat, topo: Topology)
    ensures TransReady(Uniform(P, rows, cols), Space(rows, cols, topo))
    ensures forall r :: r in {-1, 0, 1} ==> EmReady(Uniform(P, rows, cols), rows, cols, r)
  {
    var Q, sp := Uniform(P, rows, cols), Space(rows, cols, topo);
    forall p, q | InGrid(rows, cols, p) && q in Reach(sp, p) ensures p in Q.trans && q in Q.trans[p] {
      ReachInGrid(sp, p, q);
      PosSetMembers(rows, cols, p);
      PosSetMembers(rows, cols, q);
    }
    forall p | InGrid(rows, cols, p) ensures p in Q.emission {
      PosSetMembers(rows, cols, p);
    }
  }

  /** The value the loops store for every target. */
  function UniformValue(val: real): Pos -> real
  {
    q => val
  }

  lemma UniformRowIsFilled(rows: nat, cols: nat, val: real)
    requires val == UniformShare(rows, cols)
    ensures UniformRow(rows, cols) == map q | q in PosSet(rows, cols) :: UniformValue(val)(q)
  {
  }

  /** The loops over k and l of makeGridUniform for one cell: the share
      val for every target of the grid. */
  method UniformTransitions(cell: Cell, rows: nat, cols: nat, val: real)
    requires val == UniformShare(rows, cols)
    modifies cell`transitionProb
    ensures cell.transitionProb == old(cell.transitionProb) + UniformRow(rows, cols)
  {
    ghost var m0 := cell.transitionProb;
    ghost var v := UniformValue(val);
    var k := 0;
    while k < rows
      invariant 0 <= k <= rows && FilledUpTo(cell.transitionProb, m0, rows, cols, v, k, 0)
    {
      var l := 0;
      while l < cols
        invariant 0 <= l <= cols && FilledUpTo(cell.transitionProb, m0, rows, cols, v, k, l)
      {
        FilledStep(cell.transitionProb, m0, rows, cols, v, k, l);
        cell.SetTransitionProb(Pos(k, l), val);
        l := l + 1;
      }
      FilledRow(cell.transitionProb, m0, rows, cols, v, k);
      k := k + 1;
    }
    FilledEnd(cell.transitionProb, m0, rows, cols, v);
    UniformRowIsFilled(rows, cols, val);
  }

  /** The body of makeGridUniform's loops for one cell. */
  method UniformCell(cell: Cell, rows: nat, cols: nat, val: real, emission: real)
    requires val == UniformShare(rows, cols) && emission == Third
    modifies cell`initialProb, cell`transitionProb, cell`emissionProb
    ensures cell.initialProb == UniformShare(rows, cols)
    ensures cell.emissionProb == UniformEmissions(old(cell.emissionProb))
    ensures cell.transitionProb == old(cell.transitionProb) + UniformRow(rows, cols)
  {
    cell.SetInitialProb(val);
    cell.SetEmissionProb(-1, emission);
    cell.SetEmissionProb(0, emission);
    cell.SetEmissionProb(1, emission);
    UniformTransitions(cell, rows, cols, val);
  }

  /** What makeGridUniform leaves in grid cell p. */
  /** Cell p holds in Q what makeGridUniform gives it from P. */
  predicate UniformCellOf(Q: Params, P: Params, rows: nat, cols: nat, p: Pos)
  {
    p in Q.initial && p in Q.trans && p in Q.emission &&
    Init(Q, p) == UniformShare(rows, cols) &&
    Q.trans[p] == TransOf(P, p) + UniformRow(rows, cols) &&
    Q.emission[p] == UniformEmissions(EmissionsOf(P, p))
  }

  /** Every grid cell holds in Q what makeGridUniform gives it from P. */
  ghost predicate UniformCells(Q: Params, P: Params, rows: nat, cols: nat)
  {
    forall p {:trigger UniformCellOf(Q, P, rows, cols, p)} :: InGrid(rows, cols, p) ==> UniformCellOf(Q, P, rows, cols, p)
  }

  lemma UniformParamsCells(P: Params, rows: nat, cols: nat)
    ensures UniformCells(Uniform(P, rows, cols), P, rows, cols)
  {
    forall p | InGrid(rows, cols, p) ensures UniformCellOf(Uniform(P, rows, cols), P, rows, cols, p) {
      PosSetMembers(rows, cols, p);
    }
  }

  // ---------------------------------------------------------------------
  // makeGridWalls

  /** The six walls of the maze, as makeGridWalls lists them. */
  const MazeWalls: seq<Wall> := [
    Wall(Pos(0, 2), Pos(1, 2)), Wall(Pos(0, 1), Pos(1, 1)), Wall(Pos(1, 3), Pos(2, 3)),
    Wall(Pos(1, 2), Pos(2, 2)), Wall(Pos(1, 0), Pos(2, 0)), Wall(Pos(3, 2), Pos(3, 1))]

  /** Every cell the walls name lies in a rows × cols grid: the wall list
      is built from cells[x][y] for each of them. */
  predicate WallsFit(rows: int, cols: int)
  {
    forall w :: w in MazeWalls ==> InGrid(rows, cols, w.c1) && InGrid(rows, cols, w.c2)
  }

  /** A 4 × 4 grid, the one the data files describe, holds every wall. */
  lemma WallsFitFourByFour()
    ensures WallsFit(4, 4)
  {
  }

  /** The cells of xs that no wall separates from p, in their order. */
  function Unblocked(p: Pos, xs: seq<Pos>): seq<Pos>
  {
    if xs == [] then []
    else Unblocked(p, xs[..|xs| - 1]) + (if !Contains(MazeWalls, Wall(p, xs[|xs| - 1])) then [xs[|xs| - 1]] else [])
  }

  lemma {:induction false} UnblockedMembers(p: Pos, xs: seq<Pos>)
    ensures forall q :: q in Unblocked(p, xs) <==> q in xs && !Contains(MazeWalls, Wall(p, q))
    decreases |xs|
  {
    if xs != [] {
      var n := |xs| - 1;
      UnblockedMembers(p, xs[..n]);
      assert xs == xs[..n] + [xs[n]];
    }
  }

  lemma {:induction false} UnblockedDistinct(p: Pos, xs: seq<Pos>)
    requires Distinct(xs)
    ensures Distinct(Unblocked(p, xs))
    decreases |xs|
  {
    if xs != [] {
      var n := |xs| - 1;
      assert Distinct(xs[..n]);
      UnblockedDistinct(p, xs[..n]);
      UnblockedMembers(p, xs[..n]);
      assert xs[n] !in xs[..n];
    }
  }

  /** validTransitions: the neighbours of p that no wall blocks. */
  function ValidTransitions(rows: int, cols: int, p: Pos): seq<Pos>
  {
    if InGrid(rows, cols, p) then Unblocked(p, AdjacentCells(rows, cols, p)) else []
  }

  /** The valid transitions of a grid cell are its unblocked neighbours,
      each listed once. */
  lemma ValidTransitionsAre(rows: int, cols: int, p: Pos)
    requires InGrid(rows, cols, p)
    ensures Distinct(ValidTransitions(rows, cols, p))
    ensures forall q :: q in ValidTransitions(rows, cols, p) <==>
      q in AdjacentCells(rows, cols, p) && !Contains(MazeWalls, Wall(p, q))
    ensures forall q :: q in ValidTransitions(rows, cols, p) ==> InGrid(rows, cols, q) && q != p
  {
    AdjacentInGrid(rows, cols, p);
    UnblockedMembers(p, AdjacentCells(rows, cols, p));
    UnblockedDistinct(p, AdjacentCells(rows, cols, p));
  }

  /** A wall blocks both directions: q is a valid move from p exactly when
      p is one from q. */
  lemma ValidTransitionsSymmetric(rows: int, cols: int, p: Pos, q: Pos)
    requires InGrid(rows, cols, p) && InGrid(rows, cols, q)
    ensures q in ValidTransitions(rows, cols, p) <==> p in ValidTransitions(rows, cols, q)
  {
    ValidTransitionsAre(rows, cols, p);
    ValidTransitionsAre(rows, cols, q);
    AdjacencySymmetric(rows, cols, p, q);
    ContainsOrderIndependent(MazeWalls, p, q);
  }

  /** draw(from) + … + draw(from + n − 1), as the int totals add them up. */
  function DrawSum(draw: nat -> nat, from: nat, n: nat): nat
  {
    if n == 0 then 0 else DrawSum(draw, from, n - 1) + draw(from + n - 1)
  }

  /** How many of the cells in xs come before cell (i, j) in row order. */
  function CountBefore(xs: seq<Pos>, i: int, j: int): (r: nat)
    ensures r <= |xs|
  {
    if xs == [] then 0
    else CountBefore(xs[..|xs| - 1], i, j) + (if Before(xs[|xs| - 1], i, j) then 1 else 0)
  }

  /** Passing cell (i, j) counts it when it is one of the distinct xs. */
  lemma {:induction false} CountBeforeStep(xs: seq<Pos>, i: int, j: int, j': int)
    requires Distinct(xs) && j' == j + 1
    ensures CountBefore(xs, i, j') == CountBefore(xs, i, j) + if Pos(i, j) in xs then 1 else 0
    decreases |xs|
  {
    if xs != [] {
      var n := |xs| - 1;
      assert Distinct(xs[..n]);
      CountBeforeStep(xs[..n], i, j, j');
      assert xs[n] !in xs[..n];
      assert Pos(i, j) in xs <==> Pos(i, j) in xs[..n] || Pos(i, j) == xs[n];
    }
  }

  /** The end of row i is the start of row i + 1, for cells of cols columns. */
  lemma {:induction false} CountBeforeRow(xs: seq<Pos>, i: int, i': int, cols: int)
    requires forall q :: q in xs ==> 0 <= q.y < cols
    requires i' == i + 1
    ensures CountBefore(xs, i, cols) == CountBefore(xs, i', 0)
    decreases |xs|
  {
    if xs != [] {
      CountBeforeRow(xs[..|xs| - 1], i, i', cols);
    }
  }

  /** No cell of the grid comes before its first cell. */
  lemma {:induction false} CountBeforeStart(xs: seq<Pos>)
    requires forall q :: q in xs ==> 0 <= q.x && 0 <= q.y
    ensures CountBefore(xs, 0, 0) == 0
    decreases |xs|
  {
    if xs != [] {
      CountBeforeStart(xs[..|xs| - 1]);
    }
  }

  /** Every cell of the grid comes before the end of its last row. */
  lemma {:induction false} CountBeforeEnd(xs: seq<Pos>, rows: int)
    requires forall q :: q in xs ==> q.x < rows
    ensures CountBefore(xs, rows, 0) == |xs|
    decreases |xs|
  {
    if xs != [] {
      CountBeforeEnd(xs[..|xs| - 1], rows);
    }
  }

  /** The draws the loop body takes for cell p: three for its emissions and one
      per valid transition. */
  function CellDraws(rows: int, cols: int, p: Pos): nat
  {
    3 + |ValidTransitions(rows, cols, p)|
  }

  /** The draws the loop bodies of the cells ps take. */
  function DrawsFor(rows: int, cols: int, ps: seq<Pos>): nat
  {
    if ps == [] then 0 else DrawsFor(rows, cols, ps[..|ps| - 1]) + CellDraws(rows, cols, ps[|ps| - 1])
  }

  /** The cells the loops visit before cell (i, j). */
  function Visited(i: nat, j: nat, cols: nat): seq<Pos>
  {
    Positions(i, cols) + GridRow(i, j)
  }

  lemma VisitedStep(i: nat, j: nat, j': nat, cols: nat)
    requires j' == j + 1
    ensures Visited(i, j', cols) == Visited(i, j, cols) + [Pos(i, j)]
  {
  }

  lemma VisitedRow(i: nat, i': nat, cols: nat)
    requires i' == i + 1
    ensures Visited(i', 0, cols) == Visited(i, cols, cols)
  {
    assert Visited(i', 0, cols) == Positions(i', cols) + [];
  }

  /** initialIndex at cell p: how many cells come before it. */
  function Index(cols: nat, p: Pos): nat
  {
    if p.x < 0 || p.y < 0 then 0 else |Visited(p.x, p.y, cols)|
  }

  lemma IndexIsRowMajor(cols: nat, p: Pos)
    requires p.x >= 0 && p.y >= 0
    ensures Index(cols, p) == p.x * cols + p.y
  {
    PositionsLength(p.x, cols);
  }

  /** The index of the first draw cell p's loop body takes: the rows × cols
      draws of initialDist come first, then every earlier cell's. */
  function FirstDraw(rows: nat, cols: nat, p: Pos): nat
  {
    |Positions(rows, cols)| + if p.x < 0 || p.y < 0 then 0 else DrawsFor(rows, cols, Visited(p.x, p.y, cols))
  }

  lemma FirstDrawStep(rows: nat, cols: nat, i: nat, j: nat, j': nat)
    requires j' == j + 1
    ensures FirstDraw(rows, cols, Pos(i, j')) == FirstDraw(rows, cols, Pos(i, j)) + CellDraws(rows, cols, Pos(i, j))
  {
    VisitedStep(i, j, j', cols);
    assert Visited(i, j', cols)[..|Visited(i, j', cols)| - 1] == Visited(i, j, cols);
  }

  lemma FirstDrawRow(rows: nat, cols: nat, i: nat)
    ensures FirstDraw(rows, cols, Pos(i + 1, 0)) == FirstDraw(rows, cols, Pos(i, cols))
  {
    VisitedRow(i, i + 1, cols);
  }

  /** The initial probability of cell p: its draw over the total of all
      rows × cols initial draws (one per cell, see PositionsLength). */
  function WallsInitial(rows: nat, cols: nat, draw: nat -> nat, p: Pos): real
  {
    Div(draw(Index(cols, p)) as real, DrawSum(draw, 0, |Positions(rows, cols)|) as real)
  }

  /** Three draws from o, each over their total: rewards -1, 0 and 1 in
      that order; any other reward keeps what it had. */
  function WallsEmissions(m: map<int, real>, draw: nat -> nat, o: nat): map<int, real>
  {
    var total := (draw(o) + draw(o + 1) + draw(o + 2)) as real;
    m[-1 := Div(draw(o) as real, total)][0 := Div(draw(o + 1) as real, total)][1 := Div(draw(o + 2) as real, total)]
  }

  /** What a cell whose valid targets are `valid` and whose transition
      draws start at t stores for target q: the valid targets take the
      draws in the grid's row order (the n-th valid target in row order
      gets the n-th draw, whatever order the neighbours were tried in),
      each over their total; every other target gets 0. */
  function WallTransition(valid: seq<Pos>, draw: nat -> nat, t: nat, q: Pos): real
  {
    if q in valid then Div(draw(t + CountBefore(valid, q.x, q.y)) as real, DrawSum(draw, t, |valid|) as real)
    else 0.0
  }

  /** A cell's new transitions, one for every target of the grid, when its
      valid targets are `valid` and its transition draws start at t. */
  function WallsRow(rows: nat, cols: nat, draw: nat -> nat, valid: seq<Pos>, t: nat): map<Pos, real>
  {
    map q | q in PosSet(rows, cols) :: WallTransition(valid, draw, t, q)
  }

  /** Cell p's transitions after makeGridWalls, from parameters P. */
  function WallsTransitions(P: Params, rows: nat, cols: nat, draw: nat -> nat, p: Pos): map<Pos, real>
  {
    TransOf(P, p) + WallsRow(rows, cols, draw, ValidTransitions(rows, cols, p), FirstDraw(rows, cols, p) + 3)
  }

  lemma WallsTransitionsUnfold(P: Params, rows: nat, cols: nat, draw: nat -> nat, p: Pos, valid: seq<Pos>, t: nat)
    requires valid == ValidTransitions(rows, cols, p) && t == FirstDraw(rows, cols, p) + 3
    ensures WallsTransitions(P, rows, cols, draw, p) == TransOf(P, p) + WallsRow(rows, cols, draw, valid, t)
  {
  }

  /** The parameters makeGridWalls leaves, from parameters P. */
  function WallsParams(P: Params, rows: nat, cols: nat, draw: nat -> nat): Params
  {
    Params(map p | p in PosSet(rows, cols) :: WallsInitial(rows, cols, draw, p),
           map p | p in PosSet(rows, cols) :: WallsTransitions(P, rows, cols, draw, p),
           map p | p in PosSet(rows, cols) :: WallsEmissions(EmissionsOf(P, p), draw, FirstDraw(rows, cols, p)))
  }

  /** Cell p holds in Q what makeGridWalls gives it from P. */
  predicate WallsCellOf(Q: Params, P: Params, rows: nat, cols: nat, draw: nat -> nat, p: Pos)
  {
    p in Q.initial && p in Q.trans && p in Q.emission &&
    Init(Q, p) == WallsInitial(rows, cols, draw, p) &&
    Q.trans[p] == WallsTransitions(P, rows, cols, draw, p) &&
    Q.emission[p] == WallsEmissions(EmissionsOf(P, p), draw, FirstDraw(rows, cols, p))
  }

  /** Every grid cell holds in Q what makeGridWalls gives it from P. */
  ghost predicate WallsCells(Q: Params, P: Params, rows: nat, cols: nat, draw: nat -> nat)
  {
    forall p {:trigger WallsCellOf(Q, P, rows, cols, draw, p)} :: InGrid(rows, cols, p) ==> WallsCellOf(Q, P, rows, cols, draw, p)
  }

  lemma WallsParamsCells(P: Params, rows: nat, cols: nat, draw: nat -> nat)
    ensures WallsCells(WallsParams(P, rows, cols, draw), P, rows, cols, draw)
  {
    forall p | InGrid(rows, cols, p) ensures WallsCellOf(WallsParams(P, rows, cols, draw), P, rows, cols, draw, p) {
      PosSetMembers(rows, cols, p);
    }
  }

  /** One draw more. */
  lemma DrawSumStep(draw: nat -> nat, from: nat, n: nat, n': nat)
    requires n' == n + 1
    ensures DrawSum(draw, from, n') == DrawSum(draw, from, n) + draw(from + n)
  {
  }

  /** Passing cell (i, j) adds its initial draw, the next of the stream. */
  lemma InitialDrawsStep(draw: nat -> nat, cols: nat, i: nat, j: nat, j': nat)
    requires j' == j + 1
    requires Sum(Visited(i, j, cols), q => draw(Index(cols, q)) as real) == DrawSum(draw, 0, |Visited(i, j, cols)|) as real
    ensures Sum(Visited(i, j', cols), q => draw(Index(cols, q)) as real) == DrawSum(draw, 0, |Visited(i, j', cols)|) as real
  {
    var f := q => draw(Index(cols, q)) as real;
    var ys := Visited(i, j, cols);
    VisitedStep(i, j, j', cols);
    SumSnoc(ys, Pos(i, j), f);
    assert Index(cols, Pos(i, j)) == |ys|;
    assert f(Pos(i, j)) == draw(|ys|) as real;
    DrawSumStep(draw, 0, |ys|, |ys| + 1);
  }

  /** The initial draws of the cells before (i, j) add up to the first
      draws of the stream, as many as there are cells. */
  lemma {:induction false} InitialDrawsSoFar(draw: nat -> nat, cols: nat, i: nat, j: nat)
    requires j <= cols
    ensures Sum(Visited(i, j, cols), q => draw(Index(cols, q)) as real) == DrawSum(draw, 0, |Visited(i, j, cols)|) as real
    decreases i, j
  {
    if j > 0 {
      InitialDrawsSoFar(draw, cols, i, j - 1);
      InitialDrawsStep(draw, cols, i, j - 1, j);
    } else if i > 0 {
      InitialDrawsSoFar(draw, cols, i - 1, cols);
      VisitedRow(i - 1, i, cols);
    }
  }

  /** The initial distribution of makeGridWalls sums to one when the
      initial draws are not all 0. */
  lemma WallsInitialSumsToOne(P: Params, rows: nat, cols: nat, draw: nat -> nat)
    requires DrawSum(draw, 0, rows * cols) > 0
    ensures Sum(Positions(rows, cols), q => Init(WallsParams(P, rows, cols, draw), q)) == 1.0
  {
    var all := Positions(rows, cols);
    PositionsLength(rows, cols);
    var f := q => draw(Index(cols, q)) as real;
    var g := q => WallsInitial(rows, cols, draw, q);
    InitialDrawsSoFar(draw, cols, rows, 0);
    assert Visited(rows, 0, cols) == all;
    SumNormalised(all, f, g);
    var Q := WallsParams(P, rows, cols, draw);
    forall q | q in all ensures g(q) == Init(Q, q) {
      PositionsMembers(rows, cols, q);
      PosSetMembers(rows, cols, q);
    }
    SumExt(all, g, q => Init(Q, q));
  }

  /** A row of transitions as a function of the target. */
  function Entries(m: map<Pos, real>): Pos -> real
  {
    q => At(m, q)
  }

  /** The draw a target receives, or 0 for a target that is not valid. */
  function Numerator(draw: nat -> nat, valid: seq<Pos>, o: nat): Pos -> real
  {
    q => if q in valid then draw(o + CountBefore(valid, q.x, q.y)) as real else 0.0
  }

  /** Passing target (i, j) adds its numerator: the next draw when it is
      valid, nothing otherwise. */
  lemma NumeratorsStep(draw: nat -> nat, valid: seq<Pos>, o: nat, cols: nat, i: nat, j: nat, j': nat)
    requires Distinct(valid) && j' == j + 1
    requires Sum(Visited(i, j, cols), Numerator(draw, valid, o)) == DrawSum(draw, o, CountBefore(valid, i, j)) as real
    ensures Sum(Visited(i, j', cols), Numerator(draw, valid, o)) == DrawSum(draw, o, CountBefore(valid, i, j')) as real
  {
    var f, n := Numerator(draw, valid, o), CountBefore(valid, i, j);
    VisitedStep(i, j, j', cols);
    SumSnoc(Visited(i, j, cols), Pos(i, j), f);
    CountBeforeStep(valid, i, j, j');
    NumeratorTerm(draw, valid, o, Pos(i, j), n, CountBefore(valid, i, j'));
  }

  /** A target's numerator is the draw DrawSum takes next when the target
      is valid, and 0 when it is not. */
  lemma NumeratorTerm(draw: nat -> nat, valid: seq<Pos>, o: nat, p: Pos, n: nat, n': nat)
    requires n == CountBefore(valid, p.x, p.y) && n' == n + if p in valid then 1 else 0
    ensures DrawSum(draw, o, n') as real == DrawSum(draw, o, n) as real + Numerator(draw, valid, o)(p)
  {
    if p in valid {
      DrawSumStep(draw, o, n, n');
    }
  }

  /** The numerators of the targets before (i, j) add up to the draws
      handed out so far. */
  lemma {:induction false} NumeratorsSoFar(draw: nat -> nat, valid: seq<Pos>, o: nat, cols: nat, i: nat, j: nat)
    requires Distinct(valid) && j <= cols
    requires forall q :: q in valid ==> 0 <= q.x && 0 <= q.y < cols
    ensures Sum(Visited(i, j, cols), Numerator(draw, valid, o)) == DrawSum(draw, o, CountBefore(valid, i, j)) as real
    decreases i, j, 1
  {
    if j > 0 {
      NumeratorsInRow(draw, valid, o, cols, i, j - 1, j);
    } else if i > 0 {
      NumeratorsAfterRow(draw, valid, o, cols, i - 1, i);
    } else {
      NumeratorsStart(draw, valid, o, cols);
    }
  }

  lemma {:induction false} NumeratorsInRow(draw: nat -> nat, valid: seq<Pos>, o: nat, cols: nat, i: nat, j: nat, j': nat)
    requires Distinct(valid) && j' == j + 1 && j' <= cols
    requires forall q :: q in valid ==> 0 <= q.x && 0 <= q.y < cols
    ensures Sum(Visited(i, j', cols), Numerator(draw, valid, o)) == DrawSum(draw, o, CountBefore(valid, i, j')) as real
    decreases i, j', 0
  {
    NumeratorsSoFar(draw, valid, o, cols, i, j);
    NumeratorsStep(draw, valid, o, cols, i, j, j');
  }

  lemma {:induction false} NumeratorsAfterRow(draw: nat -> nat, valid: seq<Pos>, o: nat, cols: nat, i: nat, i': nat)
    requires Distinct(valid) && i' == i + 1
    requires forall q :: q in valid ==> 0 <= q.x && 0 <= q.y < cols
    ensures Sum(Visited(i', 0, cols), Numerator(draw, valid, o)) == DrawSum(draw, o, CountBefore(valid, i', 0)) as real
    decreases i', 0, 0
  {
    NumeratorsSoFar(draw, valid, o, cols, i, cols);
    NumeratorsRow(draw, valid, o, cols, i, i');
  }

  /** Moving on to the next row adds no target. */
  lemma NumeratorsRow(draw: nat -> nat, valid: seq<Pos>, o: nat, cols: nat, i: nat, i': nat)
    requires i' == i + 1
    requires forall q :: q in valid ==> 0 <= q.x && 0 <= q.y < cols
    requires Sum(Visited(i, cols, cols), Numerator(draw, valid, o)) == DrawSum(draw, o, CountBefore(valid, i, cols)) as real
    ensures Sum(Visited(i', 0, cols), Numerator(draw, valid, o)) == DrawSum(draw, o, CountBefore(valid, i', 0)) as real
  {
    VisitedRow(i, i', cols);
    CountBeforeRow(valid, i, i', cols);
  }

  /** Before the first target nothing is counted. */
  lemma NumeratorsStart(draw: nat -> nat, valid: seq<Pos>, o: nat, cols: nat)
    requires forall q :: q in valid ==> 0 <= q.x && 0 <= q.y < cols
    ensures Sum(Visited(0, 0, cols), Numerator(draw, valid, o)) == DrawSum(draw, o, CountBefore(valid, 0, 0)) as real
  {
    CountBeforeStart(valid);
    assert Visited(0, 0, cols) == [];
  }

  /** Every cell of the grid that is not an unblocked neighbour of p gets
      transition probability 0 from p. */
  lemma WallsBlockedIsZero(P: Params, rows: nat, cols: nat, draw: nat -> nat, p: Pos, q: Pos)
    requires InGrid(rows, cols, p) && InGrid(rows, cols, q)
    requires q !in AdjacentCells(rows, cols, p) || Contains(MazeWalls, Wall(p, q))
    ensures Tr(WallsParams(P, rows, cols, draw), p, q) == 0.0
  {
    PosSetMembers(rows, cols, p);
    PosSetMembers(rows, cols, q);
    ValidTransitionsAre(rows, cols, p);
  }

  /** What a row holds for a grid target q: its numerator over the total. */
  lemma WallsRowAt(rows: nat, cols: nat, draw: nat -> nat, valid: seq<Pos>, t: nat, m0: map<Pos, real>, q: Pos)
    requires InGrid(rows, cols, q)
    ensures Entries(m0 + WallsRow(rows, cols, draw, valid, t))(q) == Div(Numerator(draw, valid, t)(q), DrawSum(draw, t, |valid|) as real)
  {
    PosSetMembers(rows, cols, q);
  }

  /** A transition row sums to one over the grid when its draws are not
      all 0, whatever the row held before. */
  lemma WallsRowIsDistribution(rows: nat, cols: nat, draw: nat -> nat, valid: seq<Pos>, t: nat, m0: map<Pos, real>)
    requires Distinct(valid) && forall q :: q in valid ==> InGrid(rows, cols, q)
    requires DrawSum(draw, t, |valid|) > 0
    ensures Sum(Positions(rows, cols), Entries(m0 + WallsRow(rows, cols, draw, valid, t))) == 1.0
  {
    var f, all := Numerator(draw, valid, t), Positions(rows, cols);
    NumeratorsSoFar(draw, valid, t, cols, rows, 0);
    assert Visited(rows, 0, cols) == all;
    CountBeforeEnd(valid, rows);
    assert Sum(all, f) == DrawSum(draw, t, |valid|) as real;
    var g := Entries(m0 + WallsRow(rows, cols, draw, valid, t));
    forall q | q in all ensures g(q) == Div(f(q), Sum(all, f)) {
      PositionsMembers(rows, cols, q);
      WallsRowAt(rows, cols, draw, valid, t, m0, q);
    }
    SumNormalised(all, f, g);
  }

  /** Summing cell p's stored transitions is summing WallsTransitions. */
  lemma WallsTransitionsSum(P: Params, rows: nat, cols: nat, draw: nat -> nat, p: Pos)
    requires InGrid(rows, cols, p)
    ensures Sum(Positions(rows, cols), q => Tr(WallsParams(P, rows, cols, draw), p, q)) ==
            Sum(Positions(rows, cols), Entries(WallsTransitions(P, rows, cols, draw, p)))
  {
    PosSetMembers(rows, cols, p);
    SumExt(Positions(rows, cols), q => Tr(WallsParams(P, rows, cols, draw), p, q),
           Entries(WallsTransitions(P, rows, cols, draw, p)));
  }

  /** Every transition row of makeGridWalls sums to one over the grid
      when the cell's transition draws are not all 0. */
  lemma WallsRowSumsToOne(P: Params, rows: nat, cols: nat, draw: nat -> nat, p: Pos)
    requires InGrid(rows, cols, p)
    requires DrawSum(draw, FirstDraw(rows, cols, p) + 3, |ValidTransitions(rows, cols, p)|) > 0
    ensures Sum(Positions(rows, cols), q => Tr(WallsParams(P, rows, cols, draw), p, q)) == 1.0
  {
    var valid, t := ValidTransitions(rows, cols, p), FirstDraw(rows, cols, p) + 3;
    ValidTransitionsAre(rows, cols, p);
    WallsRowIsDistribution(rows, cols, draw, valid, t, TransOf(P, p));
    WallsTransitionsUnfold(P, rows, cols, draw, p, valid, t);
    WallsTransitionsSum(P, rows, cols, draw, p);
  }

  /** Three draws, each over their total, make one. */
  lemma ThreeShares(a: nat, b: nat, c: nat)
    requires a + b + c > 0
    ensures var t := (a + b + c) as real; Div(a as real, t) + Div(b as real, t) + Div(c as real, t) == 1.0
  {
    var t := (a + b + c) as real;
    assert a as real / t + b as real / t + c as real / t == (a as real + b as real + c as real) / t;
  }

  /** The three emissions of a grid cell sum to one when its emission draws
      are not all 0. */
  lemma WallsEmissionsSumToOne(P: Params, rows: nat, cols: nat, draw: nat -> nat, p: Pos)
    requires InGrid(rows, cols, p)
    requires var o := FirstDraw(rows, cols, p); draw(o) + draw(o + 1) + draw(o + 2) > 0
    ensures var Q := WallsParams(P, rows, cols, draw); Em(Q, p, -1) + Em(Q, p, 0) + Em(Q, p, 1) == 1.0
  {
    var o := FirstDraw(rows, cols, p);
    ThreeShares(draw(o), draw(o + 1), draw(o + 2));
    var m := WallsEmissions(EmissionsOf(P, p), draw, o);
    assert At(m, -1) + At(m, 0) + At(m, 1) == 1.0;
    PosSetMembers(rows, cols, p);
    assert WallsParams(P, rows, cols, draw).emission[p] == m;
  }

  /** Every transition and every emission of the three rewards that the
      recurrences look up is stored, for either topology. */
  lemma WallsReady(P: Params, rows: nat, cols: nat, draw: nat -> nat, topo: Topology)
    ensures TransReady(WallsParams(P, rows, cols, draw), Space(rows, cols, topo))
    ensures forall r :: r in {-1, 0, 1} ==> EmReady(WallsParams(P, rows, cols, draw), rows, cols, r)
  {
    var Q, sp := WallsParams(P, rows, cols, draw), Space(rows, cols, topo);
    forall p, q | InGrid(rows, cols, p) && q in Reach(sp, p) ensures p in Q.trans && q in Q.trans[p] {
      ReachInGrid(sp, p, q);
      PosSetMembers(rows, cols, p);
      PosSetMembers(rows, cols, q);
    }
    forall p | InGrid(rows, cols, p) ensures p in Q.emission {
      PosSetMembers(rows, cols, p);
    }
  }

  /** The loop over adj that keeps the cells no wall separates from p:
      walls.contains(new Wall(currentCell, adjCell)). */
  method UnblockedOf(p: Pos, adj: seq<Pos>) returns (valid: seq<Pos>)
    ensures valid == Unblocked(p, adj)
  {
    valid := [];
    var k := 0;
    while k < |adj|
      invariant 0 <= k <= |adj| && valid == Unblocked(p, adj[..k])
    {
      assert adj[..k + 1][..k] == adj[..k];
      if !Contains(MazeWalls, Wall(p, adj[k])) {
        valid := valid + [adj[k]];
      }
      k := k + 1;
    }
    assert adj[..k] == adj;
  }

  /** The body of the loop over l for target (k, l): a valid target takes
      transDist[transIndex] over transTotal and moves transIndex on, any other
      target 0. */
  method WallTarget(cell: Cell, draw: nat -> nat, valid: seq<Pos>, t: nat, transDist: array<nat>, transTotal: nat,
                    k: int, l: int, transIndex: nat) returns (transIndex': nat)
    requires Distinct(valid)
    requires transDist.Length == |valid| && forall d :: 0 <= d < |valid| ==> transDist[d] == draw(t + d)
    requires transTotal == DrawSum(draw, t, |valid|)
    requires transIndex == CountBefore(valid, k, l)
    modifies cell`transitionProb
    ensures cell.transitionProb == old(cell.transitionProb)[Pos(k, l) := WallTransition(valid, draw, t, Pos(k, l))]
    ensures transIndex' == CountBefore(valid, k, l + 1)
  {
    var transCell := Pos(k, l);
    CountBeforeStep(valid, k, l, l + 1);
    if transCell in valid {
      cell.SetTransitionProb(transCell, Div(transDist[transIndex] as real, transTotal as real));
      transIndex' := transIndex + 1;
    } else {
      cell.SetTransitionProb(transCell, 0.0);
      transIndex' := transIndex;
    }
  }

  /** The value the loops store for target q, as a function of q. */
  function WallValue(valid: seq<Pos>, draw: nat -> nat, t: nat): Pos -> real
  {
    q => WallTransition(valid, draw, t, q)
  }

  lemma WallsRowIsFilled(rows: nat, cols: nat, draw: nat -> nat, valid: seq<Pos>, t: nat)
    ensures WallsRow(rows, cols, draw, valid, t) == map q | q in PosSet(rows, cols) :: WallValue(valid, draw, t)(q)
  {
  }

  /** The loop over l for row k. */
  method WallTargetsRow(cell: Cell, rows: nat, cols: nat, draw: nat -> nat, valid: seq<Pos>, t: nat,
                        transDist: array<nat>, transTotal: nat, k: nat, transIndex: nat, ghost m0: map<Pos, real>)
    returns (transIndex': nat)
    requires k < rows
    requires Distinct(valid)
    requires transDist.Length == |valid| && forall d :: 0 <= d < |valid| ==> transDist[d] == draw(t + d)
    requires transTotal == DrawSum(draw, t, |valid|)
    requires FilledUpTo(cell.transitionProb, m0, rows, cols, WallValue(valid, draw, t), k, 0)
    requires transIndex == CountBefore(valid, k, 0)
    modifies cell`transitionProb
    ensures FilledUpTo(cell.transitionProb, m0, rows, cols, WallValue(valid, draw, t), k, cols)
    ensures transIndex' == CountBefore(valid, k, cols)
  {
    ghost var v := WallValue(valid, draw, t);
    transIndex' := transIndex;
    var l := 0;
    while l < cols
      invariant 0 <= l <= cols && FilledUpTo(cell.transitionProb, m0, rows, cols, v, k, l)
      invariant transIndex' == CountBefore(valid, k, l)
    {
      FilledStep(cell.transitionProb, m0, rows, cols, v, k, l);
      transIndex' := WallTarget(cell, draw, valid, t, transDist, transTotal, k, l, transIndex');
      l := l + 1;
    }
  }

  /** The loops over k and l of makeGridWalls for one cell: the valid
      targets take transDist's values in row order over transTotal, every
      other target 0. */
  method WallTransitions(cell: Cell, rows: nat, cols: nat, draw: nat -> nat, valid: seq<Pos>, t: nat,
                         transDist: array<nat>, transTotal: nat)
    requires Distinct(valid) && forall q :: q in valid ==> InGrid(rows, cols, q)
    requires transDist.Length == |valid| && forall d :: 0 <= d < |valid| ==> transDist[d] == draw(t + d)
    requires transTotal == DrawSum(draw, t, |valid|)
    modifies cell`transitionProb
    ensures cell.transitionProb == old(cell.transitionProb) + WallsRow(rows, cols, draw, valid, t)
  {
    ghost var m0 := cell.transitionProb;
    ghost var v := WallValue(valid, draw, t);
    CountBeforeStart(valid);
    var transIndex := 0;
    var k := 0;
    while k < rows
      invariant 0 <= k <= rows && FilledUpTo(cell.transitionProb, m0, rows, cols, v, k, 0)
      invariant transIndex == CountBefore(valid, k, 0)
    {
      transIndex := WallTargetsRow(cell, rows, cols, draw, valid, t, transDist, transTotal, k, transIndex, m0);
      FilledRow(cell.transitionProb, m0, rows, cols, v, k);
      CountBeforeRow(valid, k, k + 1, cols);
      k := k + 1;
    }
    FilledEnd(cell.transitionProb, m0, rows, cols, v);
    WallsRowIsFilled(rows, cols, draw, valid, t);
  }

  /** The loops that fill initialDist and transDist: count draws from o
      and their total. */
  method DrawArray(draw: nat -> nat, o: nat, count: nat) returns (dist: array<nat>, total: nat)
    ensures fresh(dist) && dist.Length == count
    ensures forall d :: 0 <= d < count ==> dist[d] == draw(o + d)
    ensures total == DrawSum(draw, o, count)
  {
    dist := new nat[count];
    total := 0;
    var k := 0;
    while k < count
      invariant 0 <= k <= count && total == DrawSum(draw, o, k)
      invariant forall d :: 0 <= d < k ==> dist[d] == draw(o + d)
    {
      dist[k] := draw(o + k);
      total := total + dist[k];
      k := k + 1;
    }
  }

  /** The three emission draws from n, each over their total. */
  method WallEmissions(cell: Cell, draw: nat -> nat, n: nat)
    modifies cell`emissionProb
    ensures cell.emissionProb == WallsEmissions(old(cell.emissionProb), draw, n)
  {
    var e1, e2, e3 := draw(n), draw(n + 1), draw(n + 2);
    var eTotal := e1 + e2 + e3;
    cell.SetEmissionProb(-1, Div(e1 as real, eTotal as real));
    cell.SetEmissionProb(0, Div(e2 as real, eTotal as real));
    cell.SetEmissionProb(1, Div(e3 as real, eTotal as real));
  }

  /** The valid transitions of a grid cell are grid cells, each listed once. */
  lemma ValidTransitionsInGrid(rows: int, cols: int, p: Pos)
    requires InGrid(rows, cols, p)
    ensures Distinct(ValidTransitions(rows, cols, p))
    ensures forall q :: q in ValidTransitions(rows, cols, p) ==> InGrid(rows, cols, q)
  {
    ValidTransitionsAre(rows, cols, p);
  }

  /** The body of makeGridWalls' loops for cell p, whose draws start at n:
      the initial value given, three emission draws over their total, one
      draw per valid transition and the transitions from them.  It returns
      where the next cell's draws start. */
  method WallsCell(cell: Cell, rows: nat, cols: nat, draw: nat -> nat, p: Pos, n: nat, initial: real)
    returns (next: nat)
    requires InGrid(rows, cols, p)
    modifies cell`initialProb, cell`transitionProb, cell`emissionProb
    ensures cell.initialProb == initial
    ensures cell.emissionProb == WallsEmissions(old(cell.emissionProb), draw, n)
    ensures cell.transitionProb == old(cell.transitionProb) + WallsRow(rows, cols, draw, ValidTransitions(rows, cols, p), n + 3)
    ensures next == n + CellDraws(rows, cols, p)
  {
    cell.SetInitialProb(initial);
    WallEmissions(cell, draw, n);
    var valid := UnblockedOf(p, AdjacentCells(rows, cols, p));
    ValidTransitionsInGrid(rows, cols, p);
    var transDist, transTotal := DrawArray(draw, n + 3, |valid|);
    WallTransitions(cell, rows, cols, draw, valid, n + 3, transDist, transTotal);
    next := n + 3 + |valid|;
  }

  /** initialIndex moves on by one per cell, and stays in the array. */
  lemma IndexStep(rows: nat, cols: nat, i: nat, j: nat, j': nat)
    requires j' == j + 1 && i < rows && j < cols
    ensures Index(cols, Pos(i, j')) == Index(cols, Pos(i, j)) + 1
    ensures Index(cols, Pos(i, j)) < rows * cols
  {
    VisitedStep(i, j, j', cols);
    IndexIsRowMajor(cols, Pos(i, j));
    MulMono(i + 1, rows, cols);
    assert (i + 1) * cols == i * cols + cols;
  }

  lemma {:induction false} MulMono(a: nat, b: nat, c: nat)
    requires a <= b
    ensures a * c <= b * c
    decreases b - a
  {
    if a < b {
      MulMono(a + 1, b, c);
      assert (a + 1) * c == a * c + c;
    }
  }

  lemma IndexRow(cols: nat, i: nat, i': nat)
    requires i' == i + 1
    ensures Index(cols, Pos(i', 0)) == Index(cols, Pos(i, cols))
  {
    VisitedRow(i, i', cols);
  }

  lemma WallsParamsKeys(P: Params, rows: nat, cols: nat, draw: nat -> nat)
    ensures var Q := WallsParams(P, rows, cols, draw);
      Q.initial.Keys == Q.trans.Keys == Q.emission.Keys == PosSet(rows, cols)
  {
  }
}

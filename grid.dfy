/**
 * The grid (src/mlap_prog/Grid.java): its cells, the episodes read from the
 * data file, and the estimators that run over them.  The source keeps rows,
 * columns and cells in static fields; here they are fields of the one grid
 * object.  Every loop of the source over `cells[i][j]` (or, in
 * OptimisedGrid, over getAdjacentCells) is one loop over the list the
 * topology gives (`Reach`), which visits the same cells in the same order.
 */
module Grids {
  import opened Sums
  import opened Cells
  import opened Adjacency
  import opened Moves
  import opened Episodes
  import opened Inference
  import opened Reestimation
  import Parsing
  import Loading
  import Setup
  import Walls
  import Counting

  /** The rewards of a list of moves. */
  function RewardsOf(ms: seq<Move>): (r: seq<int>)
    ensures |r| == |ms| && forall t :: 0 <= t < |ms| ==> r[t] == ms[t].reward
  {
    seq(|ms|, t requires 0 <= t < |ms| => ms[t].reward)
  }

  /** The value a move holds. */
  function ValOf(m: Move): MoveVal
    reads m`forwardProb, m`backwardProb
  {
    MoveVal(m.reward, m.forwardProb, m.backwardProb)
  }

  ghost function MoveVals(ms: seq<Move>): (r: seq<MoveVal>)
    reads (set m | m in ms)`forwardProb, (set m | m in ms)`backwardProb
    ensures |r| == |ms| && forall t :: 0 <= t < |ms| ==> r[t] == ValOf(ms[t])
  {
    if ms == [] then [] else MoveVals(ms[..|ms| - 1]) + [ValOf(ms[|ms| - 1])]
  }

  /** The moves as visits, when every cell is visible. */
  function VisitsOf(ms: seq<Move>): (r: seq<Counting.Visit>)
    requires forall i :: 0 <= i < |ms| ==> ms[i].cell.Some?
    ensures |r| == |ms| && forall i :: 0 <= i < |ms| ==> r[i] == Counting.Visit(ms[i].cell.value, ms[i].reward)
  {
    seq(|ms|, i requires 0 <= i < |ms| && ms[i].cell.Some? => Counting.Visit(ms[i].cell.value, ms[i].reward))
  }

  /** An episode's moves are there, each at a visible cell of the grid. */
  predicate MovesIn(moves: seq<Move>, cells: map<Pos, Cell>)
  {
    |moves| > 0 && forall i :: 0 <= i < |moves| ==> moves[i].cell.Some? && moves[i].cell.value in cells
  }

  /** A twostate lemma's arguments: the parameters being staged and the
      cell just staged. */
  datatype Staged = Staged(R: Params, at: Pos)

  /** Likewise for the initialisers: the parameters before and after, and
      the cell just set. */
  datatype Setting = Setting(P: Params, Q: Params, at: Pos)

  class Grid {
    const rows: nat
    const columns: nat
    const cells: map<Pos, Cell>
    const episodes: seq<Episode>
    /** False when reading the data file failed: the source then leaves the
        episode list null. */
    const loaded: bool
    ghost const moveSet: set<Move>
    /** The cells of the grid, as the frames of its operations name them. */
    ghost const cellSet: set<Cell>

    function SpaceOf(topo: Topology): Space
    {
      Space(rows, columns, topo)
    }

    /** One cell per coordinate of the grid, each knowing its coordinate. */
    ghost predicate CellsValid()
    {
      (forall p :: p in cells <==> InGrid(rows, columns, p)) &&
      (forall p :: p in cells ==> cells[p].x == p.x && cells[p].y == p.y && cells[p] in cellSet)
    }

    /** Every episode has a move, and every visible cell lies in the grid. */
    ghost predicate EpisodesValid()
      reads episodes
    {
      (forall a :: 0 <= a < |episodes| ==> |episodes[a].moves| > 0) &&
      (forall a, i ::
         (0 <= a < |episodes| && 0 <= i < |episodes[a].moves| && episodes[a].moves[i].cell.Some?) ==>
           InGrid(rows, columns, episodes[a].moves[i].cell.value))
    }

    /** No move object appears in two places. */
    ghost predicate MovesDistinct()
      reads episodes
    {
      forall a, b, i, j ::
        (0 <= a < |episodes| && 0 <= b < |episodes| &&
         0 <= i < |episodes[a].moves| && 0 <= j < |episodes[b].moves| &&
         episodes[a].moves[i] == episodes[b].moves[j]) ==> a == b && i == j
    }

    /** What the constructor establishes and nothing later breaks. */
    ghost predicate Valid()
      reads episodes
    {
      CellsValid() && EpisodesValid() && MovesDistinct() && (!loaded ==> episodes == []) &&
      moveSet == AllMoves()
    }

    ghost function AllMoves(): set<Move>
      reads episodes
    {
      set a, i | 0 <= a < |episodes| && 0 <= i < |episodes[a].moves| :: episodes[a].moves[i]
    }

    /** The rewards of every episode. */
    ghost function Data(): (d: seq<seq<int>>)
      reads episodes
      ensures |d| == |episodes| && forall a :: 0 <= a < |episodes| ==> d[a] == RewardsOf(episodes[a].moves)
    {
      seq(|episodes|, a requires 0 <= a < |episodes| reads episodes => RewardsOf(episodes[a].moves))
    }

    /** The active parameters of every cell. */
    ghost function Parameters(): Params
      reads cellSet
      requires CellsValid()
    {
      Params(map p | p in cells :: cells[p].initialProb,
             map p | p in cells :: cells[p].transitionProb,
             map p | p in cells :: cells[p].emissionProb)
    }

    /** Every cache holds values for grid cells only. */
    ghost predicate CachesInGrid()
      reads episodes, AllMoves()
    {
      forall a, t :: 0 <= a < |episodes| && 0 <= t < |episodes[a].moves| ==>
        Within(rows, columns, episodes[a].moves[t].forwardProb) &&
        Within(rows, columns, episodes[a].moves[t].backwardProb)
    }

    /** C is what the moves of every episode hold. */
    ghost predicate CachesAre(C: seq<seq<MoveVal>>)
      reads episodes, AllMoves()
    {
      |C| == |episodes| &&
      forall a :: 0 <= a < |episodes| ==>
        (forall t :: 0 <= t < |episodes[a].moves| ==> episodes[a].moves[t] in AllMoves()) &&
        C[a] == MoveVals(episodes[a].moves)
    }

    /** Every reward observed anywhere has a stored emission in every cell. */
    ghost predicate EmissionsReady()
      reads episodes, cellSet
      requires CellsValid()
    {
      forall a, t :: 0 <= a < |episodes| && 0 <= t < |episodes[a].moves| ==>
        EmReady(Parameters(), rows, columns, episodes[a].moves[t].reward)
    }

    /** The staging copies are empty between sweeps. */
    ghost predicate TempsClear()
      reads cellSet
      requires CellsValid()
    {
      forall p :: p in cells ==> cells[p].StagedAs(0.0, map[], map[])
    }

    /** The staging copies of every cell. */
    ghost function Temps(): Params
      reads cellSet
      requires CellsValid()
    {
      Params(map p | p in cells :: cells[p].tempInitialProb,
             map p | p in cells :: cells[p].tempTransitionProb,
             map p | p in cells :: cells[p].tempEmissionProb)
    }

    /** Every reward is one the data file can hold. */
    ghost predicate RewardsKnown()
      reads episodes
    {
      forall a, t :: 0 <= a < |episodes| && 0 <= t < |episodes[a].moves| ==> episodes[a].moves[t].reward in {-1, 0, 1}
    }

    /** The constructor: a new cell for every coordinate and the episodes
        of the data file.  When the file cannot be opened (None) or has a
        malformed line, the source catches the IOException and leaves the
        episode list null: here `loaded` is false and the list empty. */
    constructor (rows: nat, columns: nat, file: Option<seq<string>>)
      requires file.Some? ==> Loading.CellsInRange(file.value, rows, columns)
      ensures this.rows == rows && this.columns == columns
      ensures Valid() && TempsClear() && CachesInGrid() && RewardsKnown()
      ensures cells.Keys == PosSet(rows, columns) && forall p :: p in cells ==> cells[p].Pristine()
      ensures loaded <==> file.Some? && Parsing.Group(file.value).Some?
      ensures loaded ==> Loading.EpisodeEntries(episodes) == Parsing.Group(file.value).value
    {
      var cs := Loading.NewCells(rows, columns);
      var eps: seq<Episode>, ok := [], false;
      if file.Some? {
        eps, ok := Loading.GetEpisodesFromFile(rows, columns, file.value);
      }
      this.rows, this.columns, cells, episodes, loaded := rows, columns, cs, eps, ok;
      cellSet := set p | p in cs :: cs[p];
      moveSet := Loading.MovesOf(eps);
      new;
      CellsEstablished();
      EpisodesEstablished();
    }

    /** New cells, one per coordinate, make a valid set of cells with
        nothing staged. */
    lemma CellsEstablished()
      requires forall p :: p in cells <==> InGrid(rows, columns, p)
      requires forall p :: p in cells ==> cells[p].x == p.x && cells[p].y == p.y && cells[p].Pristine()
      requires cellSet == set p | p in cells :: cells[p]
      ensures CellsValid() && TempsClear() && cells.Keys == PosSet(rows, columns)
    {
      forall p ensures p in cells <==> p in PosSet(rows, columns) {
        PosSetMembers(rows, columns, p);
      }
    }

    /** Episodes as the file read leaves them are valid, share no move and
        hold no cached value. */
    lemma EpisodesEstablished()
      requires moveSet == Loading.MovesOf(episodes)
      requires forall a :: 0 <= a < |episodes| ==> |episodes[a].moves| > 0
      requires Loading.DistinctMoves(episodes) && Loading.NewMoves(episodes, rows, columns)
      ensures EpisodesValid() && MovesDistinct() && moveSet == AllMoves() && CachesInGrid() && RewardsKnown()
    {
    }

    /** A cell's stored parameters, as the snapshot holds them. */
    lemma ParamsOf(q: Pos)
      requires CellsValid()
      requires q in cells
      ensures q in Parameters().trans && Parameters().trans[q] == cells[q].transitionProb
      ensures q in Parameters().emission && Parameters().emission[q] == cells[q].emissionProb
      ensures Init(Parameters(), q) == cells[q].initialProb
    {
    }

    // -----------------------------------------------------------------
    // findVisibleParameters

    /** Every move lets its cell be seen: the estimator calls getCell()
        on each move and needs an object there. */
    ghost predicate AllVisible()
      reads episodes
    {
      forall a, i :: 0 <= a < |episodes| && 0 <= i < |episodes[a].moves| ==> episodes[a].moves[i].cell.Some?
    }

    /** The episodes as the cells visited and the rewards seen. */
    ghost function Observed(): (d: seq<seq<Counting.Visit>>)
      reads episodes
      requires AllVisible()
      ensures |d| == |episodes| && forall a :: 0 <= a < |episodes| ==> d[a] == VisitsOf(episodes[a].moves)
    {
      seq(|episodes|, a requires 0 <= a < |episodes| && AllVisible() reads episodes => VisitsOf(episodes[a].moves))
    }

    /** The counters and probabilities of every cell. */
    ghost function Tallies(): (T: map<Pos, Counting.Tally>)
      reads cellSet
      requires CellsValid()
      ensures T.Keys == cells.Keys
    {
      map p | p in cells :: Counting.TallyOf(cells[p])
    }

    /** Every visited cell is a cell of the grid. */
    lemma ObservedIn()
      requires Valid() && AllVisible()
      ensures Counting.AllIn(Observed(), Tallies())
    {
    }

    /** A step that leaves the episodes alone keeps the grid valid, its
        cells visible and what the episodes say. */
    twostate lemma EpisodesUntouched()
      requires old(Valid()) && old(AllVisible()) && unchanged(episodes)
      ensures Valid() && AllVisible() && Data() == old(Data()) && Observed() == old(Observed())
    {
    }

    /** Every move of episode a is at a cell of the grid. */
    lemma EpisodeCellsIn(a: nat)
      requires Valid() && AllVisible() && a < |episodes|
      ensures MovesIn(episodes[a].moves, cells)
    {
    }

    /** Changing one cell's counters and probabilities, and touching no
        other cell, changes that cell's tally alone. */
    twostate lemma TalliedStep(at: Pos)
      requires CellsValid() && at in cells && unchanged(cellSet - {cells[at]})
      ensures Tallies() == old(Tallies())[at := Counting.TallyOf(cells[at])]
    {
      var T, T' := old(Tallies()), Tallies();
      forall p | p in cells && p != at ensures T'[p] == T[p] {
        assert cells[p] in cellSet - {cells[at]} by {
          assert cells[p].x != at.x || cells[p].y != at.y;
        }
      }
    }

    /** Leaving one cell's staging copies alone, and touching no other
        cell, keeps every staging copy. */
    twostate lemma StagedKept(at: Pos)
      requires CellsValid() && at in cells && unchanged(cellSet - {cells[at]})
      requires cells[at].StagedAs(old(cells[at].tempInitialProb), old(cells[at].tempTransitionProb), old(cells[at].tempEmissionProb))
      ensures Temps() == old(Temps())
    {
      forall p | p in cells && p != at ensures cells[p] in cellSet - {cells[at]} {
        assert cells[p].x != at.x || cells[p].y != at.y;
      }
    }

    /** One pass of the loop body at the cell of ev: the tallies move on
        by ev. */
    method TallyAt(cell: Cell, ev: Counting.Event, n: nat, ghost T0: map<Pos, Counting.Tally>,
                   ghost evs: seq<Counting.Event>, ghost evs': seq<Counting.Event>)
      requires CellsValid() && ev.at in cells && cell == cells[ev.at] && T0.Keys == cells.Keys
      requires Counting.Reached(T0, evs, n, Tallies()) && evs' == evs + [ev]
      modifies cell`initialCount, cell`transitionCount, cell`emissionCount
      modifies cell`initialProb, cell`transitionProb, cell`emissionProb
      ensures Counting.Reached(T0, evs', n, Tallies())
      ensures Temps() == old(Temps())
    {
      ghost var R := Tallies();
      Counting.CountInto(cell, ev, n);
      TalliedStep(ev.at);
      StagedKept(ev.at);
      Counting.RunSnoc(T0, evs, ev, evs', n, R);
    }

    /** The loop body for move i of an episode: its cell's counters, also
        for the next move's cell when there is one. */
    method CountPass(moves: seq<Move>, i: nat, n: nat, ghost T0: map<Pos, Counting.Tally>, ghost e: seq<Counting.Visit>,
                     ghost before: seq<Counting.Event>)
      requires CellsValid() && T0.Keys == cells.Keys && i < |moves|
      requires MovesIn(moves, cells)
      requires e == VisitsOf(moves) && Counting.Reached(T0, before + Counting.Events(e)[..i], n, Tallies())
      modifies cellSet
      ensures Counting.Reached(T0, before + Counting.Events(e)[..i + 1], n, Tallies())
      ensures Temps() == old(Temps())
    {
      ghost var E := Counting.Events(e);
      var currentMove := moves[i];
      var ev;
      if i < |moves| - 1 {
        var nextMove := moves[i + 1];
        ev := Counting.Event(currentMove.cell.value, i == 0, Some(nextMove.cell.value), currentMove.reward);
      } else {
        ev := Counting.Event(currentMove.cell.value, false, None, currentMove.reward);
      }
      assert ev == E[i];
      Counting.PrefixSnoc(before, E, i);
      var cell := cells[ev.at];
      assert cell in cellSet;
      TallyAt(cell, ev, n, T0, before + E[..i], before + E[..i + 1]);
    }

    /** The passes over one episode's moves: one for each move but the
        last, which looks at the next move too, then the last move's. */
    method CountEpisode(moves: seq<Move>, n: nat, ghost T0: map<Pos, Counting.Tally>, ghost e: seq<Counting.Visit>,
                        ghost before: seq<Counting.Event>)
      requires CellsValid() && T0.Keys == cells.Keys && MovesIn(moves, cells)
      requires e == VisitsOf(moves) && Counting.Reached(T0, before, n, Tallies())
      modifies cellSet
      ensures Counting.Reached(T0, before + Counting.Events(e), n, Tallies())
      ensures Temps() == old(Temps())
    {
      ghost var E := Counting.Events(e);
      var i := 0;
      assert before + E[..0] == before;
      while i < |moves| - 1
        invariant 0 <= i <= |moves| - 1
        invariant Counting.Reached(T0, before + E[..i], n, Tallies())
        invariant Temps() == old(Temps())
      {
        CountPass(moves, i, n, T0, e, before);
        i := i + 1;
      }
      CountPass(moves, i, n, T0, e, before);
      Counting.PrefixSnoc(before, E, i);
    }

    /** findVisibleParameters, for episodes whose every cell is visible:
        every cell ends with the tally the estimator's passes over all the
        episodes give (counters and probabilities, with the number of
        episodes as the initial total); nothing staged changes. */
    method FindVisibleParameters()
      requires Valid() && AllVisible()
      modifies cellSet
      ensures Valid() && Data() == old(Data()) && Observed() == old(Observed())
      ensures Counting.AllIn(Observed(), old(Tallies()))
      ensures Tallies() == Counting.Estimate(old(Tallies()), Observed())
      ensures Temps() == old(Temps())
    {
      ghost var T0 := Tallies();
      ghost var data := Observed();
      ObservedIn();
      var n := |episodes|;
      var allMoves := seq(n, a requires 0 <= a < n reads episodes => episodes[a].moves);
      forall a | 0 <= a < n ensures MovesIn(allMoves[a], cells) && data[a] == VisitsOf(allMoves[a]) {
        EpisodeCellsIn(a);
      }
      var a := 0;
      assert data[..0] == [];
      while a < n
        invariant 0 <= a <= n
        invariant Counting.Reached(T0, Counting.AllEvents(data[..a]), n, Tallies())
        invariant Temps() == old(Temps())
      {
        Counting.AllEventsSnoc(data, a);
        CountEpisode(allMoves[a], n, T0, data[a], Counting.AllEvents(data[..a]));
        a := a + 1;
      }
      EpisodesUntouched();
      assert data[..n] == data;
    }

    // -----------------------------------------------------------------
    // makeGridUniform and makeGridWalls

    /** The initialisers' loops over i and j have set Q's parameters in
        every cell before (i, j); every later cell still holds P's, and no
        cell has anything staged. */
    ghost predicate SetUpTo(P: Params, Q: Params, i: int, j: int)
      reads cellSet
      requires CellsValid()
    {
      forall p :: p in cells ==>
        var S := if Before(p, i, j) then Q else P;
        p in S.trans && p in S.emission && cells[p].HoldsAs(Init(S, p), S.trans[p], S.emission[p]) &&
        cells[p].StagedAs(0.0, map[], map[])
    }

    lemma SetStarts(P: Params, Q: Params)
      requires CellsValid() && TempsClear() && P == Parameters()
      ensures SetUpTo(P, Q, 0, 0)
    {
      forall p | p in cells ensures !Before(p, 0, 0) {
        assert InGrid(rows, columns, p);
      }
    }

    lemma SetRowDone(P: Params, Q: Params, i: int)
      requires CellsValid()
      ensures SetUpTo(P, Q, i, columns) == SetUpTo(P, Q, i + 1, 0)
    {
      forall p | p in cells ensures Before(p, i, columns) == Before(p, i + 1, 0) {
        assert InGrid(rows, columns, p);
      }
    }

    /** Past the last row every cell holds Q. */
    lemma SetEnds(P: Params, Q: Params)
      requires CellsValid() && SetUpTo(P, Q, rows, 0)
      requires Q.initial.Keys == Q.trans.Keys == Q.emission.Keys == PosSet(rows, columns)
      ensures Parameters() == Q && TempsClear()
    {
      forall p ensures p in cells <==> p in PosSet(rows, columns) {
        PosSetMembers(rows, columns, p);
      }
      forall p | p in cells ensures Before(p, rows, 0) {
        assert InGrid(rows, columns, p);
      }
    }

    /** Setting Q's values in cell s.at, and touching no other cell, moves
        the loops on by one cell. */
    twostate lemma SetStep(s: Setting)
      requires CellsValid() && s.at in cells && unchanged(cellSet - {cells[s.at]})
      requires old(SetUpTo(s.P, s.Q, s.at.x, s.at.y))
      requires s.at in s.Q.trans && s.at in s.Q.emission
      requires cells[s.at].HoldsAs(Init(s.Q, s.at), s.Q.trans[s.at], s.Q.emission[s.at])
      requires cells[s.at].StagedAs(0.0, map[], map[])
      ensures SetUpTo(s.P, s.Q, s.at.x, s.at.y + 1)
    {
      forall p | p in cells && p != s.at ensures cells[p] in cellSet - {cells[s.at]} {
        assert cells[p].x != p.x || cells[p].y != p.y || cells[p] != cells[s.at];
      }
    }

    /** The parameters of the initialisers store every factor the
        recurrences read, as the rewards are those of the file format. */
    lemma ReadyFromSetup(topo: Topology, Q: Params)
      requires RewardsKnown()
      requires TransReady(Q, SpaceOf(topo)) && forall r :: r in {-1, 0, 1} ==> EmReady(Q, rows, columns, r)
      ensures Ready(topo, Q)
    {
    }

    /** makeGridUniform's loop body for cell (i, j). */
    method UniformAt(i: nat, j: nat, val: real, emission: real, ghost P: Params, ghost Q: Params)
      requires CellsValid() && i < rows && j < columns
      requires val == Setup.UniformShare(rows, columns) && emission == Setup.Third
      requires Setup.UniformCells(Q, P, rows, columns) && SetUpTo(P, Q, i, j)
      modifies cellSet
      ensures SetUpTo(P, Q, i, j + 1)
    {
      var c := Pos(i, j);
      var cell := cells[c];
      assert cell.HoldsAs(Init(P, c), P.trans[c], P.emission[c]);
      assert Setup.UniformCellOf(Q, P, rows, columns, c);
      Setup.UniformCell(cell, rows, columns, val, emission);
      SetStep(Setting(P, Q, c));
    }

    method UniformRow(i: nat, val: real, emission: real, ghost P: Params, ghost Q: Params)
      requires CellsValid() && i < rows
      requires val == Setup.UniformShare(rows, columns) && emission == Setup.Third
      requires Setup.UniformCells(Q, P, rows, columns) && SetUpTo(P, Q, i, 0)
      modifies cellSet
      ensures SetUpTo(P, Q, i, columns)
    {
      var j := 0;
      while j < columns
        invariant 0 <= j <= columns && SetUpTo(P, Q, i, j)
      {
        UniformAt(i, j, val, emission, P, Q);
        j := j + 1;
      }
    }

    /** makeGridUniform: every cell gets initial probability
        1/(rows·columns), a third for each reward, and 1/(rows·columns) for
        every target of the grid.  What it leaves is ready for the EM loop
        under either topology. */
    method MakeGridUniform()
      requires Valid() && TempsClear() && CachesInGrid() && RewardsKnown()
      modifies cellSet
      ensures Parameters() == Setup.Uniform(old(Parameters()), rows, columns)
      ensures Between(FullGrid, Data()) && Between(Neighbours, Data())
    {
      ghost var P := Parameters();
      ghost var Q := Setup.Uniform(P, rows, columns);
      var emission := Setup.Third;
      var val := Div(1.0, (rows * columns) as real);
      SetStarts(P, Q);
      Setup.UniformParamsCells(P, rows, columns);
      var i := 0;
      while i < rows
        invariant 0 <= i <= rows && SetUpTo(P, Q, i, 0)
      {
        UniformRow(i, val, emission, P, Q);
        SetRowDone(P, Q, i);
        i := i + 1;
      }
      SetEnds(P, Q);
      EpisodesKept();
      Setup.UniformReady(P, rows, columns, FullGrid);
      Setup.UniformReady(P, rows, columns, Neighbours);
      ReadyFromSetup(FullGrid, Q);
      ReadyFromSetup(Neighbours, Q);
    }

    /** What makeGridWalls' loops read: initialDist holds the first
        rows·columns draws and initialTotal their sum. */
    ghost predicate InitialDraws(draw: nat -> nat, initialDist: array<nat>, initialTotal: nat)
      reads initialDist
    {
      initialDist.Length == rows * columns &&
      (forall d :: 0 <= d < rows * columns ==> initialDist[d] == draw(0 + d)) &&
      initialTotal == Setup.DrawSum(draw, 0, rows * columns)
    }

    /** The loop that fills initialDist. */
    method InitialDrawArray(draw: nat -> nat) returns (initialDist: array<nat>, initialTotal: nat)
      ensures fresh(initialDist) && InitialDraws(draw, initialDist, initialTotal)
    {
      initialDist, initialTotal := Setup.DrawArray(draw, 0, rows * columns);
    }

    /** makeGridWalls' loop body for cell (i, j), whose draws start at n. */
    method WallsAt(i: nat, j: nat, j': nat, draw: nat -> nat, initialDist: array<nat>, initialTotal: nat,
                   n: nat, initialIndex: nat, ghost P: Params, ghost Q: Params)
      returns (n': nat, initialIndex': nat)
      requires CellsValid() && i < rows && j < columns && j' == j + 1
      requires InitialDraws(draw, initialDist, initialTotal)
      requires Setup.WallsCells(Q, P, rows, columns, draw) && SetUpTo(P, Q, i, j)
      requires n == Setup.FirstDraw(rows, columns, Pos(i, j)) && initialIndex == Setup.Index(columns, Pos(i, j))
      modifies cellSet
      ensures SetUpTo(P, Q, i, j')
      ensures n' == Setup.FirstDraw(rows, columns, Pos(i, j')) && initialIndex' == Setup.Index(columns, Pos(i, j'))
    {
      var c := Pos(i, j);
      var initial := InitialAt(draw, initialDist, initialTotal, c, initialIndex);
      n' := WallsStore(c, draw, n, initial, P, Q);
      Setup.FirstDrawStep(rows, columns, i, j, j');
      Setup.IndexStep(rows, columns, i, j, j');
      initialIndex' := initialIndex + 1;
    }

    /** Cell c takes its values, and the loops move on by one cell. */
    method WallsStore(c: Pos, draw: nat -> nat, n: nat, initial: real, ghost P: Params, ghost Q: Params)
      returns (n': nat)
      requires CellsValid() && InGrid(rows, columns, c)
      requires Setup.WallsCellOf(Q, P, rows, columns, draw, c) && SetUpTo(P, Q, c.x, c.y)
      requires n == Setup.FirstDraw(rows, columns, c) && initial == Setup.WallsInitial(rows, columns, draw, c)
      modifies cellSet
      ensures SetUpTo(P, Q, c.x, c.y + 1)
      ensures n' == n + Setup.CellDraws(rows, columns, c)
    {
      assert cells[c].HoldsAs(Init(P, c), P.trans[c], P.emission[c]);
      n' := WallsCellAt(cells[c], c, draw, n, initial, P, Q);
      SetStep(Setting(P, Q, c));
    }

    /** The cell's values from its draws, which start at n. */
    method WallsCellAt(cell: Cell, c: Pos, draw: nat -> nat, n: nat, initial: real, ghost P: Params, ghost Q: Params)
      returns (n': nat)
      requires InGrid(rows, columns, c) && Setup.WallsCellOf(Q, P, rows, columns, draw, c)
      requires c in P.trans && c in P.emission && cell.HoldsAs(Init(P, c), P.trans[c], P.emission[c])
      requires n == Setup.FirstDraw(rows, columns, c) && initial == Setup.WallsInitial(rows, columns, draw, c)
      modifies cell`initialProb, cell`transitionProb, cell`emissionProb
      ensures c in Q.trans && c in Q.emission && cell.HoldsAs(Init(Q, c), Q.trans[c], Q.emission[c])
      ensures n' == n + Setup.CellDraws(rows, columns, c)
    {
      ghost var t0, e0 := cell.transitionProb, cell.emissionProb;
      assert t0 == Setup.TransOf(P, c) && e0 == Setup.EmissionsOf(P, c);
      n' := Setup.WallsCell(cell, rows, columns, draw, c, n, initial);
      Setup.WallsTransitionsUnfold(P, rows, columns, draw, c, Setup.ValidTransitions(rows, columns, c), n + 3);
    }

    /** initialDist[initialIndex]/initialTotal: cell p's initial value. */
    method InitialAt(draw: nat -> nat, initialDist: array<nat>, initialTotal: nat, p: Pos, initialIndex: nat)
      returns (initial: real)
      requires InitialDraws(draw, initialDist, initialTotal)
      requires InGrid(rows, columns, p) && initialIndex == Setup.Index(columns, p)
      ensures initial == Setup.WallsInitial(rows, columns, draw, p)
    {
      Setup.IndexStep(rows, columns, p.x, p.y, p.y + 1);
      PositionsLength(rows, columns);
      initial := Div(initialDist[initialIndex] as real, initialTotal as real);
    }

    method WallsRowAt(i: nat, draw: nat -> nat, initialDist: array<nat>, initialTotal: nat,
                      n: nat, initialIndex: nat, ghost P: Params, ghost Q: Params)
      returns (n': nat, initialIndex': nat)
      requires CellsValid() && i < rows
      requires InitialDraws(draw, initialDist, initialTotal)
      requires Setup.WallsCells(Q, P, rows, columns, draw) && SetUpTo(P, Q, i, 0)
      requires n == Setup.FirstDraw(rows, columns, Pos(i, 0)) && initialIndex == Setup.Index(columns, Pos(i, 0))
      modifies cellSet
      ensures SetUpTo(P, Q, i, columns)
      ensures n' == Setup.FirstDraw(rows, columns, Pos(i, columns)) && initialIndex' == Setup.Index(columns, Pos(i, columns))
    {
      n', initialIndex' := n, initialIndex;
      var j := 0;
      while j < columns
        invariant 0 <= j <= columns && SetUpTo(P, Q, i, j)
        invariant n' == Setup.FirstDraw(rows, columns, Pos(i, j)) && initialIndex' == Setup.Index(columns, Pos(i, j))
      {
        n', initialIndex' := WallsAt(i, j, j + 1, draw, initialDist, initialTotal, n', initialIndex', P, Q);
        j := j + 1;
      }
    }

    /** The wall list of makeGridWalls, built from the cells each wall
        names: cells[x][y] must exist for each of them. */
    method NewWalls() returns (walls: seq<Walls.Wall>)
      requires CellsValid() && Setup.WallsFit(rows, columns)
      ensures walls == Setup.MazeWalls
    {
      walls := [];
      var k := 0;
      while k < |Setup.MazeWalls|
        invariant 0 <= k <= |Setup.MazeWalls| && walls == Setup.MazeWalls[..k]
      {
        var w := Setup.MazeWalls[k];
        walls := walls + [Walls.Wall(cells[w.c1].Coordinates(), cells[w.c2].Coordinates())];
        k := k + 1;
      }
    }

    /** makeGridWalls, with draw(k) the k-th value Random.nextInt(100)
        returns: the first rows·columns draws give the initial
        distribution, then each cell in row order takes three emission
        draws and one draw per neighbour no wall blocks.  The new
        parameters are Setup.WallsParams, ready for the EM loop under either
        topology.  Building the wall list looks up the cells each wall
        names (up to cells[3][2]), so these must lie in the grid. */
    method MakeGridWalls(draw: nat -> nat)
      requires Setup.WallsFit(rows, columns)
      requires Valid() && TempsClear() && CachesInGrid() && RewardsKnown()
      modifies cellSet
      ensures Parameters() == Setup.WallsParams(old(Parameters()), rows, columns, draw)
      ensures Between(FullGrid, Data()) && Between(Neighbours, Data())
    {
      var walls := NewWalls();
      SetWalls(draw);
    }

    /** Everything makeGridWalls does once the wall list (the constant
        Setup.MazeWalls) is built. */
    method SetWalls(draw: nat -> nat)
      requires Valid() && TempsClear() && CachesInGrid() && RewardsKnown()
      modifies cellSet
      ensures Parameters() == Setup.WallsParams(old(Parameters()), rows, columns, draw)
      ensures Between(FullGrid, Data()) && Between(Neighbours, Data())
    {
      ghost var P := Parameters();
      ghost var Q := Setup.WallsParams(P, rows, columns, draw);
      SetStarts(P, Q);
      Setup.WallsParamsCells(P, rows, columns, draw);
      WallsRows(draw, P, Q);
      Setup.WallsParamsKeys(P, rows, columns, draw);
      SetEnds(P, Q);
      EpisodesKept();
      Setup.WallsReady(P, rows, columns, draw, FullGrid);
      Setup.WallsReady(P, rows, columns, draw, Neighbours);
      ReadyFromSetup(FullGrid, Q);
      ReadyFromSetup(Neighbours, Q);
    }

    /** Row i of makeGridWalls, leaving the loops at the start of row i'. */
    method WallsRowNext(i: nat, i': nat, draw: nat -> nat, initialDist: array<nat>, initialTotal: nat,
                        n: nat, initialIndex: nat, ghost P: Params, ghost Q: Params)
      returns (n': nat, initialIndex': nat)
      requires CellsValid() && i < rows && i' == i + 1
      requires InitialDraws(draw, initialDist, initialTotal)
      requires Setup.WallsCells(Q, P, rows, columns, draw) && SetUpTo(P, Q, i, 0)
      requires n == Setup.FirstDraw(rows, columns, Pos(i, 0)) && initialIndex == Setup.Index(columns, Pos(i, 0))
      modifies cellSet
      ensures SetUpTo(P, Q, i', 0)
      ensures n' == Setup.FirstDraw(rows, columns, Pos(i', 0)) && initialIndex' == Setup.Index(columns, Pos(i', 0))
    {
      n', initialIndex' := WallsRowAt(i, draw, initialDist, initialTotal, n, initialIndex, P, Q);
      SetRowDone(P, Q, i);
      Setup.FirstDrawRow(rows, columns, i);
      Setup.IndexRow(columns, i, i');
    }

    /** makeGridWalls' loop over the rows. */
    method WallsRows(draw: nat -> nat, ghost P: Params, ghost Q: Params)
      requires CellsValid()
      requires Setup.WallsCells(Q, P, rows, columns, draw) && SetUpTo(P, Q, 0, 0)
      modifies cellSet
      ensures SetUpTo(P, Q, rows, 0)
    {
      var initialDist, initialTotal := InitialDrawArray(draw);
      PositionsLength(rows, columns);
      var n := rows * columns;
      var initialIndex := 0;
      assert Setup.Visited(0, 0, columns) == [];
      var i := 0;
      while i < rows
        invariant 0 <= i <= rows && SetUpTo(P, Q, i, 0)
        invariant n == Setup.FirstDraw(rows, columns, Pos(i, 0)) && initialIndex == Setup.Index(columns, Pos(i, 0))
        invariant InitialDraws(draw, initialDist, initialTotal)
      {
        n, initialIndex := WallsRowNext(i, i + 1, draw, initialDist, initialTotal, n, initialIndex, P, Q);
        i := i + 1;
      }
    }

    // -----------------------------------------------------------------
    // calcForwardBack

    /** Σ over the cells q the topology gives of α(t−1, q) · trans(q → s). */
    method ForwardSum(topo: Topology, prev: Move, s: Pos, ghost P: Params) returns (acc: real)
      requires CellsValid() && P == Parameters() && TransReady(P, SpaceOf(topo))
      requires InGrid(rows, columns, s)
      requires Covers(rows, columns, prev.forwardProb)
      ensures acc == FwdOver(P, prev.forwardProb, s, Reach(SpaceOf(topo), s))
    {
      var sp := SpaceOf(topo);
      var qs := Reach(sp, s);
      ghost var fwd := prev.forwardProb;
      acc := 0.0;
      var k := 0;
      while k < |qs|
        invariant 0 <= k <= |qs|
        invariant acc == FwdOver(P, fwd, s, qs[..k])
      {
        var q := qs[k];
        ReachInGrid(sp, s, q);
        ReachSymmetric(sp, s, q);
        ParamsOf(q);
        var prevForward := prev.GetForwardProb(q);
        var transProb := cells[q].GetTransitionProb(s);
        FwdOverStep(P, fwd, s, qs, k, acc, prevForward, transProb);
        acc := acc + prevForward * transProb;
        k := k + 1;
      }
      FwdOverWhole(P, fwd, s, qs);
    }

    /** α for one cell s at a move with reward r: the initial term at the
        first move, the forward sum over the previous move times the emission
        after it. */
    method ForwardCell(topo: Topology, first: bool, prev: Move, r: int, s: Pos, ghost P: Params, ghost fwd: map<Pos, real>)
      returns (forwardProb: real)
      requires CellsValid() && P == Parameters()
      requires TransReady(P, SpaceOf(topo)) && EmReady(P, rows, columns, r)
      requires InGrid(rows, columns, s)
      requires !first ==> fwd == prev.forwardProb && Covers(rows, columns, prev.forwardProb)
      ensures forwardProb == Entry(P, SpaceOf(topo), ForwardPass(first, fwd, r), s)
    {
      var c := cells[s];
      ParamsOf(s);
      if first {
        var initial := c.GetInitialProb();
        var emission := c.GetEmissionProb(r);
        ProductIs(initial, emission, Init(P, s), Em(P, s, r));
        forwardProb := initial * emission;
      } else {
        forwardProb := ForwardSum(topo, prev, s, P);
        var currentEmission := c.GetEmissionProb(r);
        ForwardValueIs(P, SpaceOf(topo), fwd, r, s, forwardProb, currentEmission);
        forwardProb := forwardProb * currentEmission;
      }
    }

    /** One cell's step of the forward loop: compute α for s and store it in
        the move's cache, leaving every cell's parameters and the previous
        move's cache as they were. */
    method ForwardStore(topo: Topology, first: bool, prev: Move, move: Move, r: int, s: Pos,
                        ghost P: Params, ghost fwd: map<Pos, real>, ghost target: map<Pos, real>)
      requires CellsValid() && P == Parameters()
      requires TransReady(P, SpaceOf(topo)) && EmReady(P, rows, columns, r)
      requires InGrid(rows, columns, s)
      requires !first ==> prev != move && fwd == prev.forwardProb && Covers(rows, columns, fwd)
      requires target == PassTarget(P, SpaceOf(topo), ForwardPass(first, fwd, r))
      modifies move`forwardProb
      ensures Parameters() == P
      ensures !first ==> prev.forwardProb == fwd
      ensures move.forwardProb == old(move.forwardProb)[s := At(target, s)]
    {
      var forwardProb := ForwardCell(topo, first, prev, r, s, P, fwd);
      PassTargetAt(P, SpaceOf(topo), ForwardPass(first, fwd, r), s);
      move.SetForwardProb(s, forwardProb);
    }

    /** The forward values of row i of the grid at one move (the inner loop
        over j of calcForwardBack's forward part), stored cell by cell. */
    method ForwardGridRow(topo: Topology, first: bool, prev: Move, move: Move, r: int, i: nat,
                          ghost P: Params, ghost fwd: map<Pos, real>, ghost target: map<Pos, real>)
      requires CellsValid() && P == Parameters()
      requires TransReady(P, SpaceOf(topo)) && EmReady(P, rows, columns, r)
      requires i < rows
      requires !first ==> prev != move && fwd == prev.forwardProb && Covers(rows, columns, fwd)
      requires target == PassTarget(P, SpaceOf(topo), ForwardPass(first, fwd, r))
      modifies move`forwardProb
      ensures Parameters() == P
      ensures !first ==> prev.forwardProb == fwd
      ensures move.forwardProb == FillRow(old(move.forwardProb), target, i, columns)
    {
      ghost var before := move.forwardProb;
      var j := 0;
      while j < columns
        invariant 0 <= j <= columns
        invariant Parameters() == P
        invariant !first ==> prev.forwardProb == fwd
        invariant move.forwardProb == FillRow(before, target, i, j)
      {
        ForwardStore(topo, first, prev, move, r, Pos(i, j), P, fwd, target);
        j := j + 1;
      }
    }

    /** The forward values of every row of the grid at one move (the loops
        over i and j of calcForwardBack's forward part). */
    method ForwardGrid(topo: Topology, first: bool, prev: Move, move: Move, r: int,
                       ghost P: Params, ghost fwd: map<Pos, real>, ghost target: map<Pos, real>)
      requires CellsValid() && P == Parameters()
      requires TransReady(P, SpaceOf(topo)) && EmReady(P, rows, columns, r)
      requires !first ==> prev != move && fwd == prev.forwardProb && Covers(rows, columns, fwd)
      requires target == PassTarget(P, SpaceOf(topo), ForwardPass(first, fwd, r))
      modifies move`forwardProb
      ensures move.forwardProb == FillGrid(old(move.forwardProb), target, rows, columns)
    {
      ghost var before := move.forwardProb;
      var i := 0;
      while i < rows
        invariant 0 <= i <= rows
        invariant Parameters() == P
        invariant !first ==> prev.forwardProb == fwd
        invariant move.forwardProb == FillGrid(before, target, i, columns)
      {
        ForwardGridRow(topo, first, prev, move, r, i, P, fwd, target);
        i := i + 1;
      }
    }

    /** The forward values of move t of the list ms, for every cell: the
        forward part of calcForwardBack for one observation. */
    method ForwardMove(topo: Topology, ms: seq<Move>, t: nat, move: Move, ghost P: Params)
      requires CellsValid() && P == Parameters()
      requires t < |ms| && move == ms[t]
      requires TransReady(P, SpaceOf(topo)) && EmReady(P, rows, columns, move.reward)
      requires t > 0 ==> ms[t - 1] != move && Covers(rows, columns, ms[t - 1].forwardProb)
      requires Within(rows, columns, move.forwardProb)
      modifies move`forwardProb
      ensures t == 0 ==> move.forwardProb == ForwardFirst(P, SpaceOf(topo), move.reward)
      ensures t > 0 ==> move.forwardProb == ForwardNext(P, SpaceOf(topo), ms[t - 1].forwardProb, move.reward)
    {
      var r := move.GetReward();
      var prev := if t == 0 then move else ms[t - 1];
      ghost var pass := ForwardPass(t == 0, prev.forwardProb, r);
      ghost var target := PassTarget(P, SpaceOf(topo), pass);
      ghost var before := move.forwardProb;
      ForwardGrid(topo, t == 0, prev, move, r, P, pass.prev, target);
      forall p ensures p in target <==> InGrid(rows, columns, p) {
        PassTargetAt(P, SpaceOf(topo), pass, p);
      }
      FillGridIs(before, target, rows, columns);
    }

    /** Σ over the cells q the topology gives of
        β(t+1, q) · trans(s → q) · emission(q, r_{t+1}). */
    method BackwardSum(topo: Topology, next: Move, nextReward: int, s: Pos, ghost P: Params) returns (acc: real)
      requires CellsValid() && P == Parameters()
      requires TransReady(P, SpaceOf(topo)) && EmReady(P, rows, columns, nextReward)
      requires InGrid(rows, columns, s)
      requires Covers(rows, columns, next.backwardProb)
      ensures acc == BwdOver(P, next.backwardProb, nextReward, s, Reach(SpaceOf(topo), s))
    {
      var sp := SpaceOf(topo);
      var qs := Reach(sp, s);
      ghost var bwd := next.backwardProb;
      ParamsOf(s);
      acc := 0.0;
      var k := 0;
      while k < |qs|
        invariant 0 <= k <= |qs|
        invariant acc == BwdOver(P, bwd, nextReward, s, qs[..k])
      {
        var q := qs[k];
        ReachInGrid(sp, s, q);
        ParamsOf(q);
        var nextBackward := next.GetBackwardProb(q);
        var transProb := cells[s].GetTransitionProb(q);
        var emissionProb := cells[q].GetEmissionProb(nextReward);
        BwdOverStep(P, bwd, nextReward, s, qs, k, acc, nextBackward, transProb, emissionProb);
        acc := acc + nextBackward * transProb * emissionProb;
        k := k + 1;
      }
      BwdOverWhole(P, bwd, nextReward, s, qs);
    }

    /** β for one cell s: 1 at the last move, otherwise the backward sum over
        the next move. */
    method BackwardCell(topo: Topology, last: bool, next: Move, nextReward: int, s: Pos,
                        ghost P: Params, ghost bwd: map<Pos, real>)
      returns (backwardProb: real)
      requires CellsValid() && P == Parameters()
      requires InGrid(rows, columns, s)
      requires !last ==> TransReady(P, SpaceOf(topo)) && EmReady(P, rows, columns, nextReward)
      requires !last ==> bwd == next.backwardProb && Covers(rows, columns, bwd)
      ensures backwardProb == Entry(P, SpaceOf(topo), BackwardPass(last, bwd, nextReward), s)
    {
      if last {
        backwardProb := 1.0;
      } else {
        backwardProb := BackwardSum(topo, next, nextReward, s, P);
      }
    }

    /** One cell's step of the backward loop. */
    method BackwardStore(topo: Topology, last: bool, next: Move, move: Move, nextReward: int, s: Pos,
                         ghost P: Params, ghost bwd: map<Pos, real>, ghost target: map<Pos, real>)
      requires CellsValid() && P == Parameters()
      requires InGrid(rows, columns, s)
      requires !last ==> TransReady(P, SpaceOf(topo)) && EmReady(P, rows, columns, nextReward)
      requires !last ==> next != move && bwd == next.backwardProb && Covers(rows, columns, bwd)
      requires target == PassTarget(P, SpaceOf(topo), BackwardPass(last, bwd, nextReward))
      modifies move`backwardProb
      ensures Parameters() == P
      ensures !last ==> next.backwardProb == bwd
      ensures move.backwardProb == old(move.backwardProb)[s := At(target, s)]
    {
      var backwardProb := BackwardCell(topo, last, next, nextReward, s, P, bwd);
      PassTargetAt(P, SpaceOf(topo), BackwardPass(last, bwd, nextReward), s);
      move.SetBackwardProb(s, backwardProb);
    }

    /** The backward values of row i of the grid at one move. */
    method BackwardGridRow(topo: Topology, last: bool, next: Move, move: Move, nextReward: int, i: nat,
                           ghost P: Params, ghost bwd: map<Pos, real>, ghost target: map<Pos, real>)
      requires CellsValid() && P == Parameters()
      requires i < rows
      requires !last ==> TransReady(P, SpaceOf(topo)) && EmReady(P, rows, columns, nextReward)
      requires !last ==> next != move && bwd == next.backwardProb && Covers(rows, columns, bwd)
      requires target == PassTarget(P, SpaceOf(topo), BackwardPass(last, bwd, nextReward))
      modifies move`backwardProb
      ensures Parameters() == P
      ensures !last ==> next.backwardProb == bwd
      ensures move.backwardProb == FillRow(old(move.backwardProb), target, i, columns)
    {
      ghost var before := move.backwardProb;
      var j := 0;
      while j < columns
        invariant 0 <= j <= columns
        invariant Parameters() == P
        invariant !last ==> next.backwardProb == bwd
        invariant move.backwardProb == FillRow(before, target, i, j)
      {
        BackwardStore(topo, last, next, move, nextReward, Pos(i, j), P, bwd, target);
        j := j + 1;
      }
    }

    /** The backward values of every row of the grid at one move (the loops
        over i and j of calcForwardBack's backward part). */
    method BackwardGrid(topo: Topology, last: bool, next: Move, move: Move, nextReward: int,
                        ghost P: Params, ghost bwd: map<Pos, real>, ghost target: map<Pos, real>)
      requires CellsValid() && P == Parameters()
      requires !last ==> TransReady(P, SpaceOf(topo)) && EmReady(P, rows, columns, nextReward)
      requires !last ==> next != move && bwd == next.backwardProb && Covers(rows, columns, bwd)
      requires target == PassTarget(P, SpaceOf(topo), BackwardPass(last, bwd, nextReward))
      modifies move`backwardProb
      ensures move.backwardProb == FillGrid(old(move.backwardProb), target, rows, columns)
    {
      ghost var before := move.backwardProb;
      var i := 0;
      while i < rows
        invariant 0 <= i <= rows
        invariant Parameters() == P
        invariant !last ==> next.backwardProb == bwd
        invariant move.backwardProb == FillGrid(before, target, i, columns)
      {
        BackwardGridRow(topo, last, next, move, nextReward, i, P, bwd, target);
        i := i + 1;
      }
    }

    /** The backward values of move t of the list ms, for every cell. */
    method BackwardMove(topo: Topology, ms: seq<Move>, t: nat, move: Move, ghost P: Params)
      requires CellsValid() && P == Parameters()
      requires t < |ms| && move == ms[t]
      requires t < |ms| - 1 ==> TransReady(P, SpaceOf(topo)) && EmReady(P, rows, columns, ms[t + 1].reward)
      requires t < |ms| - 1 ==> ms[t + 1] != move && Covers(rows, columns, ms[t + 1].backwardProb)
      requires Within(rows, columns, move.backwardProb)
      modifies move`backwardProb
      ensures t == |ms| - 1 ==> move.backwardProb == BackwardLast(SpaceOf(topo))
      ensures t < |ms| - 1 ==>
        move.backwardProb == BackwardNext(P, SpaceOf(topo), ms[t + 1].backwardProb, ms[t + 1].reward)
    {
      var last := t == |ms| - 1;
      var next := if last then move else ms[t + 1];
      var nextReward := next.GetReward();
      ghost var pass := BackwardPass(last, next.backwardProb, nextReward);
      ghost var target := PassTarget(P, SpaceOf(topo), pass);
      ghost var before := move.backwardProb;
      BackwardGrid(topo, last, next, move, nextReward, P, pass.next, target);
      forall p ensures p in target <==> InGrid(rows, columns, p) {
        PassTargetAt(P, SpaceOf(topo), pass, p);
      }
      FillGridIs(before, target, rows, columns);
    }

    /** The moves of ms from t on still hold caches with keys in the grid only,
        and those before t hold their forward rows. */
    ghost predicate ForwardDone(topo: Topology, ms: seq<Move>, P: Params, t: nat)
      reads ms
      requires t <= |ms|
    {
      (forall u :: 0 <= u < t ==> ms[u].forwardProb == ForwardRow(P, SpaceOf(topo), RewardsOf(ms), u)) &&
      (forall u :: t <= u < |ms| ==> Within(rows, columns, ms[u].forwardProb))
    }

    /** One observation of the forward loop. */
    method ForwardStep(topo: Topology, ms: seq<Move>, t: nat, ghost P: Params)
      requires CellsValid() && P == Parameters() && TransReady(P, SpaceOf(topo))
      requires t < |ms| && EmReady(P, rows, columns, ms[t].reward)
      requires forall u, v :: 0 <= u < v < |ms| ==> ms[u] != ms[v]
      requires ForwardDone(topo, ms, P, t)
      modifies {ms[t]}`forwardProb
      ensures Parameters() == P
      ensures ForwardDone(topo, ms, P, t + 1)
    {
      ghost var sp, rw := SpaceOf(topo), RewardsOf(ms);
      ghost var row := ForwardRow(P, sp, rw, t);
      ForwardRowIs(P, sp, rw, t);
      if t > 0 {
        ForwardRowKeys(P, sp, rw, t - 1);
      }
      ForwardMove(topo, ms, t, ms[t], P);
      assert ms[t].forwardProb == row;
      forall u | 0 <= u < |ms| && u != t ensures ms[u].forwardProb == old(ms[u].forwardProb) {
        assert ms[u] != ms[t];
      }
    }

    /** The forward loop of calcForwardBack over the moves of one episode. */
    method ForwardEpisode(topo: Topology, ms: seq<Move>, ghost P: Params)
      requires CellsValid() && P == Parameters() && TransReady(P, SpaceOf(topo))
      requires forall t :: 0 <= t < |ms| ==> EmReady(P, rows, columns, ms[t].reward)
      requires forall u, v :: 0 <= u < v < |ms| ==> ms[u] != ms[v]
      requires forall t :: 0 <= t < |ms| ==> Within(rows, columns, ms[t].forwardProb)
      modifies (set m | m in ms)`forwardProb
      ensures Parameters() == P
      ensures ForwardDone(topo, ms, P, |ms|)
    {
      var t := 0;
      while t < |ms|
        invariant 0 <= t <= |ms|
        invariant Parameters() == P
        invariant ForwardDone(topo, ms, P, t)
      {
        ForwardStep(topo, ms, t, P);
        t := t + 1;
      }
    }

    /** The moves of ms before t still hold caches with keys in the grid only,
        and those from t on hold their backward rows. */
    ghost predicate BackwardDone(topo: Topology, ms: seq<Move>, P: Params, t: nat)
      reads ms
      requires t <= |ms|
    {
      (forall u :: t <= u < |ms| ==> ms[u].backwardProb == BackwardRow(P, SpaceOf(topo), RewardsOf(ms), u)) &&
      (forall u :: 0 <= u < t ==> Within(rows, columns, ms[u].backwardProb))
    }

    /** One observation of the backward loop. */
    method BackwardStep(topo: Topology, ms: seq<Move>, t: nat, ghost P: Params)
      requires CellsValid() && P == Parameters() && TransReady(P, SpaceOf(topo))
      requires t < |ms| && (t < |ms| - 1 ==> EmReady(P, rows, columns, ms[t + 1].reward))
      requires forall u, v :: 0 <= u < v < |ms| ==> ms[u] != ms[v]
      requires BackwardDone(topo, ms, P, t + 1)
      modifies {ms[t]}`backwardProb
      ensures Parameters() == P
      ensures BackwardDone(topo, ms, P, t)
    {
      ghost var sp, rw := SpaceOf(topo), RewardsOf(ms);
      ghost var row := BackwardRow(P, sp, rw, t);
      BackwardRowIs(P, sp, rw, t);
      if t < |ms| - 1 {
        BackwardRowKeys(P, sp, rw, t + 1);
      }
      BackwardMove(topo, ms, t, ms[t], P);
      assert ms[t].backwardProb == row;
      forall u | 0 <= u < |ms| && u != t ensures ms[u].backwardProb == old(ms[u].backwardProb) {
        assert ms[u] != ms[t];
      }
    }

    /** The backward loop of calcForwardBack over the moves of one episode,
        from the last move to the first. */
    method BackwardEpisode(topo: Topology, ms: seq<Move>, ghost P: Params)
      requires CellsValid() && P == Parameters() && TransReady(P, SpaceOf(topo))
      requires forall t :: 0 <= t < |ms| ==> EmReady(P, rows, columns, ms[t].reward)
      requires forall u, v :: 0 <= u < v < |ms| ==> ms[u] != ms[v]
      requires forall t :: 0 <= t < |ms| ==> Within(rows, columns, ms[t].backwardProb)
      modifies (set m | m in ms)`backwardProb
      ensures Parameters() == P
      ensures BackwardDone(topo, ms, P, 0)
    {
      var t := |ms|;
      while t > 0
        invariant 0 <= t <= |ms|
        invariant Parameters() == P
        invariant BackwardDone(topo, ms, P, t)
      {
        t := t - 1;
        BackwardStep(topo, ms, t, P);
      }
    }

    /** Both loops of calcForwardBack for one episode. */
    method EpisodeForwardBack(topo: Topology, ms: seq<Move>, ghost P: Params)
      requires CellsValid() && P == Parameters() && TransReady(P, SpaceOf(topo))
      requires forall t :: 0 <= t < |ms| ==> EmReady(P, rows, columns, ms[t].reward)
      requires forall u, v :: 0 <= u < v < |ms| ==> ms[u] != ms[v]
      requires forall t :: 0 <= t < |ms| ==> Within(rows, columns, ms[t].forwardProb)
      requires forall t :: 0 <= t < |ms| ==> Within(rows, columns, ms[t].backwardProb)
      modifies set m | m in ms
      ensures Parameters() == P
      ensures MoveVals(ms) == EpisodeCaches(P, SpaceOf(topo), RewardsOf(ms))
    {
      ForwardEpisode(topo, ms, P);
      BackwardEpisode(topo, ms, P);
      ghost var sp := SpaceOf(topo);
      ghost var vals, caches := MoveVals(ms), EpisodeCaches(P, sp, RewardsOf(ms));
      forall t | 0 <= t < |ms| ensures vals[t] == caches[t] {
        assert ms[t].forwardProb == ForwardRow(P, sp, RewardsOf(ms), t);
      }
    }

    /** Every rewards' emission is stored in every cell. */
    ghost predicate RewardsReady(P: Params)
      reads episodes
    {
      forall a, t :: 0 <= a < |episodes| && 0 <= t < |episodes[a].moves| ==>
        EmReady(P, rows, columns, episodes[a].moves[t].reward)
    }

    /** The caches of episode e are the ones the recurrences give. */
    ghost predicate EpisodeCached(topo: Topology, P: Params, e: Episode)
      reads e, e.moves
    {
      MoveVals(e.moves) == EpisodeCaches(P, SpaceOf(topo), RewardsOf(e.moves))
    }

    /** The caches of episode e have keys in the grid only. */
    ghost predicate EpisodeInGrid(e: Episode)
      reads e, e.moves
    {
      forall t :: 0 <= t < |e.moves| ==>
        Within(rows, columns, e.moves[t].forwardProb) && Within(rows, columns, e.moves[t].backwardProb)
    }

    /** The episodes before n hold their caches; the others hold keys in the
        grid only. */
    ghost predicate FBDone(topo: Topology, P: Params, n: nat)
      reads episodes, AllMoves()
      requires n <= |episodes|
    {
      (forall a :: 0 <= a < n ==> EpisodeCached(topo, P, episodes[a])) &&
      (forall a :: n <= a < |episodes| ==> EpisodeInGrid(episodes[a]))
    }

    /** One episode of calcForwardBack. */
    method ForwardBackStep(topo: Topology, n: nat, ghost P: Params)
      requires Valid() && P == Parameters() && TransReady(P, SpaceOf(topo)) && RewardsReady(P)
      requires n < |episodes| && FBDone(topo, P, n)
      modifies set m | m in episodes[n].moves
      ensures Parameters() == P
      ensures FBDone(topo, P, n + 1)
    {
      var ms := episodes[n].moves;
      EpisodeForwardBack(topo, ms, P);
      forall a | 0 <= a < |episodes| && a != n
        ensures unchanged(set m | m in episodes[a].moves)
      {
        assert forall t, u :: 0 <= t < |episodes[a].moves| && 0 <= u < |ms| ==> episodes[a].moves[t] != ms[u];
      }
      assert EpisodeCached(topo, P, episodes[n]);
    }

    lemma CachesFromDone(topo: Topology, P: Params)
      requires FBDone(topo, P, |episodes|)
      ensures CachesAre(Caches(P, SpaceOf(topo), Data()))
    {
      var C := Caches(P, SpaceOf(topo), Data());
      forall a | 0 <= a < |episodes|
        ensures (forall t :: 0 <= t < |episodes[a].moves| ==> episodes[a].moves[t] in AllMoves())
        ensures C[a] == MoveVals(episodes[a].moves)
      {
        assert EpisodeCached(topo, P, episodes[a]);
      }
    }

    /** calcForwardBack: the forward and then the backward values of every
        move of every episode, over the cells the topology gives. */
    method CalcForwardBack(topo: Topology, ghost P: Params, ghost data: seq<seq<int>>)
      requires Valid() && P == Parameters() && Data() == data && Ready(topo, P) && CachesInGrid()
      modifies AllMoves()
      ensures Valid() && Parameters() == P && Data() == data && TempsClear() == old(TempsClear())
      ensures CachesAre(Caches(P, SpaceOf(topo), data))
    {
      assert FBDone(topo, P, 0);
      var n := 0;
      while n < |episodes|
        invariant 0 <= n <= |episodes|
        invariant Parameters() == P
        invariant FBDone(topo, P, n)
      {
        ForwardBackStep(topo, n, P);
        n := n + 1;
      }
      CachesFromDone(topo, P);
      CellsKept();
    }

    // -----------------------------------------------------------------
    // getLogLikelihood, before its logarithm

    /** Σ over every grid cell of α at an episode's last move. */
    method LastForwardTotal(lastMove: Move, ghost ev: seq<MoveVal>) returns (episodeTotal: real)
      requires |ev| > 0 && lastMove.forwardProb == ev[|ev| - 1].fwd
      requires Covers(rows, columns, ev[|ev| - 1].fwd)
      ensures episodeTotal == LastForwardSum(SpaceOf(FullGrid), ev)
    {
      var qs := Positions(rows, columns);
      ghost var f := Lookup(lastMove.forwardProb);
      episodeTotal := 0.0;
      var k := 0;
      while k < |qs|
        invariant 0 <= k <= |qs|
        invariant episodeTotal == Sum(qs[..k], f)
      {
        var q := qs[k];
        PositionsMembers(rows, columns, q);
        SumPrefixStep(qs, k, f);
        episodeTotal := episodeTotal + lastMove.GetForwardProb(q);
        k := k + 1;
      }
      assert qs[..k] == qs;
    }

    /** The product over episodes of the sum of the last move's forward
        values: the likelihood the source takes the logarithm of. */
    method GetLikelihood(ghost C: seq<seq<MoveVal>>) returns (total: real)
      requires CachesAre(C)
      requires forall a :: 0 <= a < |C| ==> |C[a]| > 0 && Covers(rows, columns, C[a][|C[a]| - 1].fwd)
      ensures total == Likelihood(SpaceOf(FullGrid), C)
    {
      ghost var sp := SpaceOf(FullGrid);
      total := 1.0;
      var n := 0;
      while n < |episodes|
        invariant 0 <= n <= |episodes|
        invariant total == Likelihood(sp, C[..n])
      {
        var moves := episodes[n].GetMoves();
        var lastMove := moves[|moves| - 1];
        var episodeTotal := LastForwardTotal(lastMove, C[n]);
        LikelihoodStep(sp, C, n, total, episodeTotal);
        total := total * episodeTotal;
        n := n + 1;
      }
      assert C[..n] == C;
    }

    // -----------------------------------------------------------------
    // calcJointProb

    /** The joint term for cells c1 and c2 at moves currentMove and nextMove. */
    function PairTermOf(currentMove: Move, nextMove: Move, c1: Pos, c2: Pos): (term: real)
      reads cellSet, currentMove, nextMove
      requires CellsValid()
      requires PairStored(Parameters(), ValOf(currentMove), ValOf(nextMove), c1, c2)
      ensures term == PairTerm(Parameters(), ValOf(currentMove), ValOf(nextMove), c1, c2)
    {
      ParamsOf(c1);
      ParamsOf(c2);
      var forward := currentMove.GetForwardProb(c1);
      var transProb := cells[c1].GetTransitionProb(c2);
      var emissionProb := cells[c2].GetEmissionProb(nextMove.GetReward());
      var backward := nextMove.GetBackwardProb(c2);
      PairTermIs(Parameters(), ValOf(currentMove), ValOf(nextMove), c1, c2, forward, transProb, emissionProb, backward);
      forward * transProb * emissionProb * backward
    }

    /** The inner loop of calcJointProb's denominator: the joint terms from
        c1 to every cell the topology gives. */
    method PairSum(topo: Topology, currentMove: Move, nextMove: Move, c1: Pos,
                   ghost P: Params, ghost cur: MoveVal, ghost next: MoveVal) returns (acc: real)
      requires CellsValid()
      requires P == Parameters() && cur == ValOf(currentMove) && next == ValOf(nextMove)
      requires JointStored(P, SpaceOf(topo), cur, next) && InGrid(rows, columns, c1)
      ensures acc == RowOver(P, cur, next, c1, Reach(SpaceOf(topo), c1))
    {
      JointStoredRow(P, SpaceOf(topo), cur, next, c1);
      var qs := Reach(SpaceOf(topo), c1);
      acc := 0.0;
      var k := 0;
      while k < |qs|
        invariant 0 <= k <= |qs|
        invariant acc == RowOver(P, cur, next, c1, qs[..k])
      {
        var c2 := qs[k];
        RowOverStep(P, cur, next, c1, qs, k);
        var term := PairTermOf(currentMove, nextMove, c1, c2);
        acc := acc + term;
        k := k + 1;
      }
      RowOverWhole(P, cur, next, c1, qs);
    }

    /** calcJointProb's denominator: the joint terms over every cell c1 and
        every c2 the topology gives for it. */
    method JointDenominatorOf(topo: Topology, currentMove: Move, nextMove: Move,
                              ghost P: Params, ghost cur: MoveVal, ghost next: MoveVal) returns (denominator: real)
      requires CellsValid()
      requires P == Parameters() && cur == ValOf(currentMove) && next == ValOf(nextMove)
      requires JointStored(P, SpaceOf(topo), cur, next)
      ensures denominator == DenomOver(P, SpaceOf(topo), cur, next, All(SpaceOf(topo)))
    {
      var qs := Positions(rows, columns);
      denominator := 0.0;
      var k := 0;
      while k < |qs|
        invariant 0 <= k <= |qs|
        invariant denominator == DenomOver(P, SpaceOf(topo), cur, next, qs[..k])
      {
        var c1 := qs[k];
        PositionsMembers(rows, columns, c1);
        DenomOverStep(P, SpaceOf(topo), cur, next, qs, k);
        var rowSum := PairSum(topo, currentMove, nextMove, c1, P, cur, next);
        denominator := denominator + rowSum;
        k := k + 1;
      }
      DenomOverWhole(P, SpaceOf(topo), cur, next, qs);
    }

    /** calcJointProb: P(h_t = c, h_{t+1} = n) from the caches of two
        consecutive moves, which hold cur and next. */
    method CalcJointProb(topo: Topology, currentMove: Move, nextMove: Move, c: Pos, n: Pos,
                         ghost P: Params, ghost cur: MoveVal, ghost next: MoveVal) returns (joint: real)
      requires CellsValid()
      requires P == Parameters() && cur == ValOf(currentMove) && next == ValOf(nextMove)
      requires JointStored(P, SpaceOf(topo), cur, next)
      requires InGrid(rows, columns, c) && n in Reach(SpaceOf(topo), c)
      ensures joint == Joint(P, SpaceOf(topo), cur, next, c, n)
    {
      var numerator := PairTermOf(currentMove, nextMove, c, n);
      var denominator := JointDenominatorOf(topo, currentMove, nextMove, P, cur, next);
      DenomOverIsSum(P, SpaceOf(topo), cur, next, All(SpaceOf(topo)));
      joint := Div(numerator, denominator);
    }

    // -----------------------------------------------------------------
    // The re-estimation body of findHiddenParameters, for one cell

    /** The moves ms hold the values ev. */
    ghost predicate MovesHold(ms: seq<Move>, ev: seq<MoveVal>)
      reads set m | m in ms
    {
      |ms| == |ev| && forall t :: 0 <= t < |ms| ==> ValOf(ms[t]) == ev[t]
    }

    /** The loop over the moves of one episode for cell c: marginalProbSum_T,
        marginalProbSum_T_minus_1 and emissionProbSum, continued from the
        values the earlier episodes left. */
    method MovesPass(ms: seq<Move>, c: Pos, ghost ev: seq<MoveVal>, all0: real, body0: real, em0: map<int, real>)
      returns (all: real, body: real, em: map<int, real>)
      requires MovesHold(ms, ev) && Distinct(ms)
      requires forall t :: 0 <= t < |ev| ==> c in ev[t].fwd && c in ev[t].bwd && ev[t].fwd.Keys <= ev[t].bwd.Keys
      ensures all == all0 + Sum(ev, MargOf(c))
      ensures body == body0 + Sum(Body(ev), MargOf(c))
      ensures em == AddEach(em0, ev, RewardOf(), MargOf(c))
    {
      all, body, em := all0, body0, em0;
      var t := 0;
      while t < |ms|
        invariant 0 <= t <= |ms|
        invariant MovesSoFar(ev, c, t, all0, body0, em0, all, body, em)
      {
        var move := ms[t];
        var cellProb := move.GetMarginalCellProb(c);
        var rewardType := move.GetReward();
        var emissionTotal := 0.0;
        if rewardType in em {
          emissionTotal := em[rewardType];
        }
        MovesStep(ev, c, t, cellProb, rewardType, emissionTotal, all0, body0, em0, all, body, em);
        all := all + cellProb;
        IndexOfDistinct(ms, t);
        if IndexOf(ms, move) < |ms| - 1 {
          body := body + cellProb;
        }
        em := em[rewardType := emissionTotal + cellProb];
        t := t + 1;
      }
      assert ev[..t] == ev;
    }

    /** The innermost loop of the joint sums: P(h_t = c, h_{t+1} = n) over
        the consecutive moves of one episode, added to jointTotal0. */
    method ObservationJoint(topo: Topology, ms: seq<Move>, c: Pos, n: Pos, ghost ev: seq<MoveVal>, ghost P: Params,
                            jointTotal0: real)
      returns (jointTotal: real)
      requires CellsValid()
      requires |ms| > 0 && P == Parameters() && MovesHold(ms, ev) && PairsStored(P, SpaceOf(topo), ev)
      requires InGrid(rows, columns, c) && n in Reach(SpaceOf(topo), c)
      ensures jointTotal == jointTotal0 + PairsJoint(P, SpaceOf(topo), ev, c, n)
    {
      ghost var sp := SpaceOf(topo);
      jointTotal := jointTotal0;
      var observation := 0;
      while observation < |ms| - 1
        invariant 0 <= observation <= |ms| - 1
        invariant ObservationsSoFar(P, sp, ev, c, n, observation, jointTotal0, jointTotal)
      {
        var move := ms[observation];
        var nextMove := ms[observation + 1];
        var joint := CalcJointProb(topo, move, nextMove, c, n, P, ev[observation], ev[observation + 1]);
        ObservationStep(P, sp, ev, c, n, observation, jointTotal0, jointTotal, joint);
        jointTotal := jointTotal + joint;
        observation := observation + 1;
      }
      assert ev[..observation + 1] == ev;
    }

    /** The loop over the cells n the topology lets c reach (every cell of
        the grid, or the neighbours of c): jointProbSum[n] gains the
        episode's joint sum for (c, n). */
    method EpisodeJoints(topo: Topology, ms: seq<Move>, c: Pos, ghost ev: seq<MoveVal>, ghost P: Params,
                         jp0: map<Pos, real>)
      returns (jp: map<Pos, real>)
      requires CellsValid()
      requires |ms| > 0 && P == Parameters() && MovesHold(ms, ev) && PairsStored(P, SpaceOf(topo), ev)
      requires InGrid(rows, columns, c)
      ensures jp == AddEach(jp0, Reach(SpaceOf(topo), c), Id(), PairsJointOf(P, SpaceOf(topo), ev, c))
    {
      ghost var sp := SpaceOf(topo);
      var nextCells := Reach(SpaceOf(topo), c);
      jp := jp0;
      var k := 0;
      while k < |nextCells|
        invariant 0 <= k <= |nextCells|
        invariant JointsSoFar(P, sp, ev, c, nextCells, k, jp0, jp)
      {
        var nextCell := nextCells[k];
        var jointTotal := 0.0;
        if nextCell in jp {
          jointTotal := jp[nextCell];
        }
        jointTotal := ObservationJoint(topo, ms, c, nextCell, ev, P, jointTotal);
        JointsStep(P, sp, ev, c, nextCells, k, jp0, jp, jointTotal);
        jp := jp[nextCell := jointTotal];
        k := k + 1;
      }
      assert nextCells[..k] == nextCells;
    }

    /** What the sweep for cell c needs of one episode: a first move,
        distinct move objects holding ev, and stored factors for every
        marginal and joint term. */
    ghost predicate EpisodeReady(topo: Topology, ms: seq<Move>, ev: seq<MoveVal>, P: Params, c: Pos)
      reads set m | m in ms
    {
      MovesHold(ms, ev) && Distinct(ms) && EpisodeStored(P, SpaceOf(topo), ev, c)
    }

    /** After calcForwardBack episode a is ready for the sweep of any grid
        cell. */
    lemma EpisodeReadyAt(topo: Topology, C: seq<seq<MoveVal>>, c: Pos, a: nat)
      requires Valid() && CachesAre(C) && GridShaped(SpaceOf(topo), C)
      requires (episodes != [] ==> TransReady(Parameters(), SpaceOf(topo))) && RewardsReady(Parameters())
      requires InGrid(rows, columns, c) && a < |episodes|
      ensures EpisodeReady(topo, episodes[a].moves, C[a], Parameters(), c)
    {
      var sp, P := SpaceOf(topo), Parameters();
      var ms, ev := episodes[a].moves, C[a];
      assert |ms| > 0;
      forall t | 0 <= t < |ev|
        ensures c in ev[t].fwd && c in ev[t].bwd && ev[t].fwd.Keys <= ev[t].bwd.Keys
      {
        assert GridCache(sp, ev[t]);
      }
      forall t | 0 <= t < |ev| - 1
        ensures JointStored(P, sp, ev[t], ev[t + 1])
      {
        assert GridCache(sp, ev[t]) && GridCache(sp, ev[t + 1]);
        assert ev[t + 1].reward == ms[t + 1].reward;
        assert EmReady(P, rows, columns, ms[t + 1].reward);
        JointStoredFrom(P, sp, ev[t], ev[t + 1]);
      }
      forall u, v | 0 <= u < v < |ms| ensures ms[u] != ms[v] {
        assert episodes[a].moves[u] != episodes[a].moves[v];
      }
    }

    lemma EpisodesReady(topo: Topology, C: seq<seq<MoveVal>>, c: Pos)
      requires Valid() && CachesAre(C) && GridShaped(SpaceOf(topo), C)
      requires (episodes != [] ==> TransReady(Parameters(), SpaceOf(topo))) && RewardsReady(Parameters())
      requires InGrid(rows, columns, c)
      ensures SweepReady(topo, C, Parameters(), c)
    {
      forall a | 0 <= a < |episodes|
        ensures EpisodeReady(topo, episodes[a].moves, C[a], Parameters(), c)
      {
        EpisodeReadyAt(topo, C, c, a);
      }
    }

    /** The body of the loop over the episodes for cell c: the five running
        sums gain what episode ms contributes. */
    method EpisodeTally(topo: Topology, ms: seq<Move>, c: Pos, ghost ev: seq<MoveVal>, ghost P: Params,
                        initial0: real, all0: real, body0: real, em0: map<int, real>, jp0: map<Pos, real>)
      returns (initial: real, all: real, body: real, em: map<int, real>, jp: map<Pos, real>)
      requires CellsValid()
      requires P == Parameters() && EpisodeReady(topo, ms, ev, P, c) && InGrid(rows, columns, c)
      ensures Tally(initial, all, body, em, jp) == AddEpisode(P, SpaceOf(topo), Tally(initial0, all0, body0, em0, jp0), ev, c)
    {
      var firstMove := ms[0];
      assert ValOf(firstMove) == ev[0];
      var first := firstMove.GetMarginalCellProb(c);
      initial := initial0 + first;
      all, body, em := MovesPass(ms, c, ev, all0, body0, em0);
      jp := EpisodeJoints(topo, ms, c, ev, P, jp0);
      AddEpisodeIs(P, SpaceOf(topo), Tally(initial0, all0, body0, em0, jp0), ev, c, first, all, body, em, jp);
    }

    /** Every episode is ready for the sweep of cell c under parameters P. */
    ghost predicate SweepReady(topo: Topology, C: seq<seq<MoveVal>>, P: Params, c: Pos)
      reads cellSet, episodes, AllMoves()
    {
      CellsValid() && P == Parameters() && |C| == |episodes| &&
      forall a :: 0 <= a < |episodes| ==> EpisodeReady(topo, episodes[a].moves, C[a], P, c)
    }

    /** The loop over the episodes for cell c: the five running sums of the
        sweep, as TallyOf gives them. */
    method CellTally(topo: Topology, c: Pos, ghost C: seq<seq<MoveVal>>, ghost P: Params)
      returns (initialProbSum: real, marginalProbSumT: real, marginalProbSumTMinus1: real,
               emissionProbSum: map<int, real>, jointProbSum: map<Pos, real>)
      requires SweepReady(topo, C, P, c) && InGrid(rows, columns, c)
      ensures Tally(initialProbSum, marginalProbSumT, marginalProbSumTMinus1, emissionProbSum, jointProbSum)
        == TallyOf(P, SpaceOf(topo), C, c)
    {
      ghost var sp := SpaceOf(topo);
      initialProbSum, marginalProbSumT, marginalProbSumTMinus1 := 0.0, 0.0, 0.0;
      emissionProbSum, jointProbSum := map[], map[];
      var a := 0;
      ghost var T := TallyOf(P, sp, C[..a], c);
      while a < |episodes|
        invariant 0 <= a <= |episodes| && T == TallyOf(P, sp, C[..a], c)
        invariant Tally(initialProbSum, marginalProbSumT, marginalProbSumTMinus1, emissionProbSum, jointProbSum) == T
        invariant SweepReady(topo, C, P, c)
      {
        var moves := episodes[a].GetMoves();
        initialProbSum, marginalProbSumT, marginalProbSumTMinus1, emissionProbSum, jointProbSum :=
          EpisodeTally(topo, moves, c, C[a], P,
                       initialProbSum, marginalProbSumT, marginalProbSumTMinus1, emissionProbSum, jointProbSum);
        TallyStep(P, sp, C, a, c);
        T := AddEpisode(P, sp, T, C[a], c);
        a := a + 1;
      }
      assert C[..a] == C;
    }

    // -----------------------------------------------------------------
    // Staging the new parameters and swapping them in

    /** Writes to the staging copies leave the active parameters as they
        were. */
    twostate lemma ParametersKept()
      requires CellsValid()
      requires unchanged(cellSet`initialProb, cellSet`transitionProb, cellSet`emissionProb)
      ensures Parameters() == old(Parameters())
    {
    }

    /** The sweep has staged R's values in every cell before (i, j) and in
        no other. */
    ghost predicate SweptUpTo(R: Params, i: int, j: int)
      reads cellSet
      requires CellsValid()
    {
      forall p :: p in cells ==>
        if Before(p, i, j) then p in R.trans && p in R.emission && cells[p].StagedAs(Init(R, p), R.trans[p], R.emission[p])
        else cells[p].StagedAs(0.0, map[], map[])
    }

    /** Staging R's values in cell (i, j), and touching no other cell,
        moves the sweep on by one cell. */
    twostate lemma SweptStep(s: Staged)
      requires CellsValid() && s.at in cells && unchanged(cellSet - {cells[s.at]})
      requires old(SweptUpTo(s.R, s.at.x, s.at.y))
      requires s.at in s.R.trans && s.at in s.R.emission
      requires cells[s.at].StagedAs(Init(s.R, s.at), s.R.trans[s.at], s.R.emission[s.at])
      ensures SweptUpTo(s.R, s.at.x, s.at.y + 1)
    {
      forall p | p in cells && p != s.at ensures cells[p] in cellSet - {cells[s.at]} {
        assert cells[p].x != p.x || cells[p].y != p.y || cells[p] != cells[s.at];
      }
    }

    /** What the sweep reads is in place: the grid and its episodes are
        well formed, the caches C hold a value for every grid cell, and every
        transition and emission the joint terms use is stored in P. */
    ghost predicate SweepInputs(topo: Topology, C: seq<seq<MoveVal>>, P: Params)
      reads episodes, AllMoves()
    {
      Valid() && CachesAre(C) && GridShaped(SpaceOf(topo), C) &&
      (episodes != [] ==> TransReady(P, SpaceOf(topo))) && RewardsReady(P)
    }

    /** Stages cell c's new parameters (the body of the sweep's loops over i
        and j): its five sums over every episode, then the initial sum over
        the number of episodes, each emission sum over marginalProbSum_T and
        each joint sum over marginalProbSum_T_minus_1.  Reports whether one of
        these divisions leaves a NaN that the next likelihood reads. */
    method SweepCell(topo: Topology, long: bool, c: Pos, ghost C: seq<seq<MoveVal>>, ghost P: Params) returns (undefined: bool)
      requires CellsValid()
      requires P == Parameters() && SweepInputs(topo, C, P) && InGrid(rows, columns, c) && long == SomePair(C)
      modifies {cells[c]}`tempInitialProb, {cells[c]}`tempTransitionProb, {cells[c]}`tempEmissionProb
      ensures Parameters() == P
      ensures undefined == UndefinedBy(TallyOf(P, SpaceOf(topo), C, c), long)
      ensures cells[c].tempInitialProb == Div(TallyOf(P, SpaceOf(topo), C, c).initial, |C| as real)
      ensures cells[c].tempEmissionProb ==
        old(cells[c].tempEmissionProb) + Scaled(TallyOf(P, SpaceOf(topo), C, c).emission, TallyOf(P, SpaceOf(topo), C, c).all)
      ensures cells[c].tempTransitionProb ==
        old(cells[c].tempTransitionProb) + Scaled(TallyOf(P, SpaceOf(topo), C, c).joint, TallyOf(P, SpaceOf(topo), C, c).body)
    {
      EpisodesReady(topo, C, c);
      var initialProbSum, marginalProbSumT, marginalProbSumTMinus1, emissionProbSum, jointProbSum := CellTally(topo, c, C, P);
      var T := Tally(initialProbSum, marginalProbSumT, marginalProbSumTMinus1, emissionProbSum, jointProbSum);
      var currentCell := cells[c];
      var newInitial := Div(initialProbSum, |episodes| as real);
      currentCell.SetTempInitialProb(newInitial);
      StageEmissions(currentCell, emissionProbSum, marginalProbSumT);
      StageTransitions(currentCell, jointProbSum, marginalProbSumTMinus1);
      ParametersKept();
      undefined := UndefinedBy(T, long);
    }

    ghost predicate StageReady(topo: Topology, C: seq<seq<MoveVal>>, P: Params, R: Params)
      reads episodes, moveSet
    {
      moveSet == AllMoves() && SweepInputs(topo, C, P) && R == Reestimate(P, SpaceOf(topo), C)
    }

    /** One step of the sweep's inner loop: staging cell (i, j) moves the
        staged cells on by one and leaves the active parameters alone. */
    method StageCell(topo: Topology, long: bool, i: int, j: int, ghost C: seq<seq<MoveVal>>, ghost P: Params, ghost R: Params)
      returns (undefined: bool)
      requires CellsValid()
      requires P == Parameters() && StageReady(topo, C, P, R) && 0 <= i < rows && 0 <= j < columns
      requires long == SomePair(C)
      requires SweptUpTo(R, i, j)
      modifies cellSet
      ensures Parameters() == P && SweptUpTo(R, i, j + 1)
      ensures undefined == UndefinedOf(P, SpaceOf(topo), C)(Pos(i, j))
    {
      var c := Pos(i, j);
      assert cells[c].StagedAs(0.0, map[], map[]);
      undefined := SweepCell(topo, long, c, C, P);
      ghost var f := UndefinedOf(P, SpaceOf(topo), C);
      assert f(c) == undefined;
      ReestimateAt(P, SpaceOf(topo), C, c);
      NoneBefore(cells[c].tempTransitionProb, R.trans[c]);
      NoneBefore(cells[c].tempEmissionProb, R.emission[c]);
      SweptStep(Staged(R, c));
    }

    /** The inner loop of the sweep, over the cells of row i.  The flag
        reports every NaN-leaving division so far. */
    method SweepRow(topo: Topology, long: bool, i: nat, undefined0: bool, ghost C: seq<seq<MoveVal>>, ghost P: Params, ghost R: Params)
      returns (undefined: bool)
      requires CellsValid()
      requires P == Parameters() && StageReady(topo, C, P, R) && long == SomePair(C)
      requires i < rows && SweptUpTo(R, i, 0)
      requires undefined0 == SomeBefore(UndefinedOf(P, SpaceOf(topo), C), rows, columns, i, 0)
      modifies cellSet
      ensures Parameters() == P && SweptUpTo(R, i, columns)
      ensures undefined == SomeBefore(UndefinedOf(P, SpaceOf(topo), C), rows, columns, i, columns)
    {
      ghost var f := UndefinedOf(P, SpaceOf(topo), C);
      undefined := undefined0;
      var j := 0;
      while j < columns
        invariant 0 <= j <= columns
        invariant Parameters() == P && SweptUpTo(R, i, j)
        invariant undefined == SomeBefore(f, rows, columns, i, j)
      {
        var u := StageCell(topo, long, i, j, C, P, R);
        assert f(Pos(i, j)) == u;
        SomeBeforeStep(f, rows, columns, i, j);
        undefined := undefined || u;
        j := j + 1;
      }
    }

    /** With every cell of row i staged, the sweep stands at the start of
        row i + 1. */
    lemma RowDone(R: Params, i: int)
      requires CellsValid()
      ensures SweptUpTo(R, i, columns) == SweptUpTo(R, i + 1, 0)
    {
      forall p | p in cells ensures Before(p, i, columns) == Before(p, i + 1, 0) {
        assert InGrid(rows, columns, p);
      }
    }

    /** Clear staging copies are a sweep that has staged nothing yet. */
    lemma SweepStarts(R: Params)
      requires CellsValid() && TempsClear()
      ensures SweptUpTo(R, 0, 0)
    {
      forall p | p in cells ensures !Before(p, 0, 0) {
        assert InGrid(rows, columns, p);
      }
    }

    /** A sweep past the last row has staged R in every cell. */
    lemma SweepEnds(R: Params)
      requires CellsValid() && SweptUpTo(R, rows, 0)
      requires R.initial.Keys == R.trans.Keys == R.emission.Keys == PosSet(rows, columns)
      ensures Temps() == R
    {
      forall p ensures p in cells <==> p in PosSet(rows, columns) {
        PosSetMembers(rows, columns, p);
      }
      forall p | p in cells ensures Before(p, rows, 0) {
        assert InGrid(rows, columns, p);
      }
    }

    /** The sweep over every cell (the loops over i and j of
        findHiddenParameters): stages the parameters R that one EM step
        re-estimates from P and the caches C, leaves P active, and reports
        whether one of the sweep's divisions leaves a NaN that the next
        likelihood reads. */
    method Sweep(topo: Topology, long: bool, ghost C: seq<seq<MoveVal>>, ghost P: Params, ghost R: Params)
      returns (undefined: bool)
      requires CellsValid()
      requires P == Parameters() && StageReady(topo, C, P, R) && TempsClear() && long == SomePair(C)
      modifies cellSet
      ensures Parameters() == P && Temps() == R
      ensures undefined == LeavesNaN(P, SpaceOf(topo), C)
    {
      SweepStarts(R);
      undefined := SweepRows(topo, long, C, P, R);
      SomeBeforeAll(UndefinedOf(P, SpaceOf(topo), C), rows, columns);
      ReestimateKeys(P, SpaceOf(topo), C);
      SweepEnds(R);
    }

    /** The outer loop of the sweep, over the rows. */
    method SweepRows(topo: Topology, long: bool, ghost C: seq<seq<MoveVal>>, ghost P: Params, ghost R: Params)
      returns (undefined: bool)
      requires CellsValid()
      requires P == Parameters() && StageReady(topo, C, P, R) && SweptUpTo(R, 0, 0) && long == SomePair(C)
      modifies cellSet
      ensures Parameters() == P && SweptUpTo(R, rows, 0)
      ensures undefined == SomeBefore(UndefinedOf(P, SpaceOf(topo), C), rows, columns, rows, 0)
    {
      ghost var f := UndefinedOf(P, SpaceOf(topo), C);
      undefined := false;
      var i := 0;
      while i < rows
        invariant 0 <= i <= rows
        invariant Parameters() == P && SweptUpTo(R, i, 0)
        invariant undefined == SomeBefore(f, rows, columns, i, 0)
      {
        undefined := SweepRow(topo, long, i, undefined, C, P, R);
        RowDone(R, i);
        SomeBeforeRow(f, rows, columns, i);
        i := i + 1;
      }
    }

    /** The copy loop has swapped in T for the cells before (i, j) and
        clears their staging copies; the later cells still hold T staged. */
    ghost predicate CopiedUpTo(T: Params, i: int, j: int)
      reads cellSet
      requires CellsValid()
    {
      forall p :: p in cells ==>
        p in T.trans && p in T.emission &&
        if Before(p, i, j) then cells[p].HoldsAs(Init(T, p), T.trans[p], T.emission[p]) && cells[p].StagedAs(0.0, map[], map[])
        else cells[p].StagedAs(Init(T, p), T.trans[p], T.emission[p])
    }

    /** Swapping in the staged values of cell (i, j), and touching no other
        cell, moves the copy on by one cell. */
    twostate lemma CopiedStep(s: Staged)
      requires CellsValid() && s.at in cells && unchanged(cellSet - {cells[s.at]})
      requires old(CopiedUpTo(s.R, s.at.x, s.at.y))
      requires cells[s.at].HoldsAs(Init(s.R, s.at), s.R.trans[s.at], s.R.emission[s.at])
      requires cells[s.at].StagedAs(0.0, map[], map[])
      ensures CopiedUpTo(s.R, s.at.x, s.at.y + 1)
    {
      forall p | p in cells && p != s.at ensures cells[p] in cellSet - {cells[s.at]} {
        assert cells[p].x != p.x || cells[p].y != p.y || cells[p] != cells[s.at];
      }
    }

    /** The staging copies are stored for exactly the grid's cells. */
    lemma TempsKeys()
      requires CellsValid()
      ensures Temps().initial.Keys == Temps().trans.Keys == Temps().emission.Keys == PosSet(rows, columns)
    {
      forall p ensures p in cells <==> p in PosSet(rows, columns) {
        PosSetMembers(rows, columns, p);
      }
    }

    /** The staging copies are the whole parameter set T: the copy can start. */
    lemma CopyStarts(T: Params)
      requires CellsValid() && Temps() == T
      ensures CopiedUpTo(T, 0, 0)
    {
      forall p | p in cells ensures !Before(p, 0, 0) {
        assert InGrid(rows, columns, p);
      }
    }

    /** A copy past the last row has made T active everywhere and cleared
        every staging copy. */
    lemma CopyEnds(T: Params)
      requires CellsValid() && CopiedUpTo(T, rows, 0)
      requires T.initial.Keys == T.trans.Keys == T.emission.Keys == PosSet(rows, columns)
      ensures Parameters() == T && TempsClear()
    {
      forall p ensures p in cells <==> p in PosSet(rows, columns) {
        PosSetMembers(rows, columns, p);
      }
      forall p | p in cells ensures Before(p, rows, 0) {
        assert InGrid(rows, columns, p);
      }
    }

    lemma CopyRowDone(T: Params, i: int)
      requires CellsValid()
      ensures CopiedUpTo(T, i, columns) == CopiedUpTo(T, i + 1, 0)
    {
      forall p | p in cells ensures Before(p, i, columns) == Before(p, i + 1, 0) {
        assert InGrid(rows, columns, p);
      }
    }

    method CopyRow(i: nat, ghost T: Params)
      requires CellsValid() && i < rows && CopiedUpTo(T, i, 0)
      modifies cellSet
      ensures CopiedUpTo(T, i, columns)
    {
      var j := 0;
      while j < columns
        invariant 0 <= j <= columns
        invariant CopiedUpTo(T, i, j)
      {
        label Before:
        var c := cells[Pos(i, j)];
        c.CopyTempToActual();
        CopiedStep@Before(Staged(T, Pos(i, j)));
        j := j + 1;
      }
    }

    /** The loop after the sweep: every cell's staged values become its
        active ones and its staging copy is cleared. */
    method CopyAll()
      requires CellsValid()
      modifies cellSet
      ensures Parameters() == old(Temps()) && TempsClear()
    {
      ghost var T := Temps();
      TempsKeys();
      CopyStarts(T);
      var i := 0;
      while i < rows
        invariant 0 <= i <= rows
        invariant CopiedUpTo(T, i, 0)
      {
        CopyRow(i, T);
        CopyRowDone(T, i);
        i := i + 1;
      }
      CopyEnds(T);
    }

    // -----------------------------------------------------------------
    // findHiddenParameters

    /** Caches with an entry for exactly the grid's cells have keys in the
        grid only. */
    lemma CachesInGridFrom(topo: Topology, C: seq<seq<MoveVal>>)
      requires CachesAre(C) && GridShaped(SpaceOf(topo), C)
      ensures CachesInGrid()
    {
      forall a, t | 0 <= a < |episodes| && 0 <= t < |episodes[a].moves|
        ensures Within(rows, columns, episodes[a].moves[t].forwardProb)
        ensures Within(rows, columns, episodes[a].moves[t].backwardProb)
      {
        assert ValOf(episodes[a].moves[t]) == C[a][t];
        assert GridCache(SpaceOf(topo), C[a][t]);
      }
    }

    /** Every episode's last move has a forward value for every grid cell. */
    lemma LastMovesCover(topo: Topology, C: seq<seq<MoveVal>>)
      requires Valid() && CachesAre(C) && GridShaped(SpaceOf(topo), C)
      ensures forall a :: 0 <= a < |C| ==> |C[a]| > 0 && Covers(rows, columns, C[a][|C[a]| - 1].fwd)
    {
      forall a | 0 <= a < |C| ensures |C[a]| > 0 && Covers(rows, columns, C[a][|C[a]| - 1].fwd) {
        assert |C[a]| == |episodes[a].moves| > 0;
        assert GridCache(SpaceOf(topo), C[a][|C[a]| - 1]);
      }
    }

    /** Every factor the next forward-backward pass and sweep read is
        stored in Q. */
    ghost predicate Ready(topo: Topology, Q: Params)
      reads episodes
    {
      (episodes != [] ==> TransReady(Q, SpaceOf(topo))) && RewardsReady(Q)
    }

    /** Every reward of every episode is seen in the caches C, so the
        re-estimated parameters store an emission for it in every cell, and
        (given an episode) a transition for every pair the topology
        allows. */
    lemma ReadyAfter(topo: Topology, C: seq<seq<MoveVal>>, P: Params)
      requires CachesAre(C)
      ensures Ready(topo, Reestimate(P, SpaceOf(topo), C))
    {
      var R := Reestimate(P, SpaceOf(topo), C);
      forall a, t | 0 <= a < |episodes| && 0 <= t < |episodes[a].moves|
        ensures EmReady(R, rows, columns, episodes[a].moves[t].reward)
      {
        assert C[a][t] == ValOf(episodes[a].moves[t]);
        assert C[a][t] in C[a];
        ReestimateEmReady(P, SpaceOf(topo), C, episodes[a].moves[t].reward);
      }
      if episodes != [] {
        ReestimateTransReady(P, SpaceOf(topo), C);
      }
    }

    /** What holds between two iterations of findHiddenParameters'
        loop: the staging copies are clear, the caches hold grid cells only,
        and every factor the next forward-backward pass reads is stored. */
    ghost predicate Between(topo: Topology, data: seq<seq<int>>)
      reads episodes, cellSet, moveSet
    {
      CellsValid() && Settled(Parameters(), data) && CachesInGrid() && Ready(topo, Parameters())
    }

    /** The grid is valid with its staging copies clear, its active
        parameters are P and its episodes' rewards are data. */
    ghost predicate Settled(P: Params, data: seq<seq<int>>)
      reads episodes, cellSet
    {
      Valid() && TempsClear() && Parameters() == P && Data() == data
    }

    /** After calcForwardBack under P: the grid is still valid with its
        staging copies clear and parameters P, and the moves hold the caches
        that P gives for the rewards data. */
    ghost predicate Counted(topo: Topology, P: Params, data: seq<seq<int>>)
      reads episodes, cellSet, moveSet
    {
      Settled(P, data) && CachesAre(Caches(P, SpaceOf(topo), data))
    }

    /** The first half of an iteration: calcForwardBack, then the
        likelihood (before its logarithm) of every episode. */
    method Expectation(topo: Topology, ghost P: Params, ghost data: seq<seq<int>>) returns (total: real)
      requires Between(topo, data) && P == Parameters()
      modifies moveSet
      ensures Counted(topo, P, data)
      ensures total == Likelihood(SpaceOf(FullGrid), Caches(P, SpaceOf(topo), data))
    {
      assert Settled(P, data);
      CalcForwardBack(topo, P, data);
      assert TempsClear();
      assert Counted(topo, P, data);
      total := Total(topo, P, data);
    }

    /** getLogLikelihood before its logarithm, on the caches just computed
        under P. */
    method Total(topo: Topology, ghost P: Params, ghost data: seq<seq<int>>) returns (total: real)
      requires Counted(topo, P, data)
      ensures total == Likelihood(SpaceOf(FullGrid), Caches(P, SpaceOf(topo), data))
    {
      ghost var C := Caches(P, SpaceOf(topo), data);
      CachesGridShaped(P, SpaceOf(topo), data);
      LastMovesCover(topo, C);
      total := GetLikelihood(C);
    }

    /** The second half of an iteration: the sweep, then the copy, from
        the caches that calcForwardBack left under parameters P. */
    method Maximisation(topo: Topology, long: bool, ghost P: Params, ghost data: seq<seq<int>>) returns (undefined: bool)
      requires Counted(topo, P, data) && Ready(topo, P) && long == SomePair(data)
      modifies cellSet
      ensures Between(topo, data)
      ensures Parameters() == Reestimate(P, SpaceOf(topo), Caches(P, SpaceOf(topo), data))
      ensures undefined == LeavesNaN(P, SpaceOf(topo), Caches(P, SpaceOf(topo), data))
    {
      ghost var C := Caches(P, SpaceOf(topo), data);
      CachesGridShaped(P, SpaceOf(topo), data);
      CachesSomePair(P, SpaceOf(topo), data);
      ReadyAfter(topo, C, P);
      CachesInGridFrom(topo, C);
      undefined := Renew(topo, long, C, P);
      EpisodesKept();
    }

    /** The sweep and then the copy: the active parameters become the
        re-estimated ones. */
    method Renew(topo: Topology, long: bool, ghost C: seq<seq<MoveVal>>, ghost P: Params) returns (undefined: bool)
      requires CellsValid()
      requires P == Parameters() && moveSet == AllMoves() && SweepInputs(topo, C, P) && TempsClear()
      requires long == SomePair(C)
      modifies cellSet
      ensures Parameters() == Reestimate(P, SpaceOf(topo), C) && TempsClear()
      ensures undefined == LeavesNaN(P, SpaceOf(topo), C)
    {
      ghost var R := Reestimate(P, SpaceOf(topo), C);
      undefined := Sweep(topo, long, C, P, R);
      CopyAll();
    }

    /** A step that leaves the episodes and the cells alone keeps the grid
        valid, the rewards, the active parameters and the staging copies. */
    twostate lemma CellsKept()
      requires old(Valid()) && unchanged(episodes) && unchanged(cellSet)
      ensures Valid() && Data() == old(Data()) && Parameters() == old(Parameters()) && TempsClear() == old(TempsClear())
    {
    }

    /** A step that leaves the episodes and their moves alone keeps the
        grid valid, the rewards, the caches and what is stored for them. */
    twostate lemma EpisodesKept()
      requires old(Valid()) && unchanged(episodes) && unchanged(moveSet)
      ensures Valid() && Data() == old(Data()) && CachesInGrid() == old(CachesInGrid())
    {
    }

    /** One iteration of findHiddenParameters' loop under parameters P:
        the forward-backward pass and the log-likelihood, the two stopping
        tests, and unless one of them stops the loop, the sweep and the
        copy.  `undefined` says that the likelihood is NaN; a likelihood of
        0 never passes the convergence test. */
    method Iterate(topo: Topology, long: bool, ln: real -> real, ghost P: Params, ghost data: seq<seq<int>>,
                   ghost it: Iteration, prevLikelihood: real, undefined: bool)
      returns (stop: bool, outcome: Outcome, total: real, currentLikelihood: real, undefinedNext: bool)
      requires Between(topo, data) && Parameters() == P && long == SomePair(data)
      requires it == IterationOf(P, SpaceOf(topo), data)
      modifies cellSet, moveSet
      ensures total == it.likelihood && currentLikelihood == ln(total)
      ensures stop <==> undefined || (total != 0.0 && Abs(currentLikelihood - prevLikelihood) < 0.01)
      ensures stop ==> Parameters() == P && outcome == if undefined then Diverged else Converged(currentLikelihood)
      ensures !stop ==> Between(topo, data) && Parameters() == it.next
      ensures !stop ==> undefinedNext == (total == 0.0 || it.leavesNaN)
    {
      total := Expectation(topo, P, data);
      currentLikelihood := ln(total);
      undefinedNext := undefined;
      if undefined {
        return true, Diverged, total, currentLikelihood, undefinedNext;
      } else if total != 0.0 && Abs(currentLikelihood - prevLikelihood) < 0.01 {
        return true, Converged(currentLikelihood), total, currentLikelihood, undefinedNext;
      }
      var nan := Maximisation(topo, long, P, data);
      undefinedNext := total == 0.0 || nan;
      stop, outcome := false, OutOfFuel;
    }

    /** Whether some episode has two moves or more: the model's stand-in for
        whether any NaN transition can reach the likelihood. */
    method HasLongEpisode() returns (long: bool)
      ensures long == SomePair(Data())
    {
      ghost var data := Data();
      long := false;
      var a := 0;
      while a < |episodes|
        invariant 0 <= a <= |episodes|
        invariant long <==> exists b :: 0 <= b < a && |data[b]| >= 2
      {
        var n := episodes[a].GetLength();
        if n >= 2 {
          long := true;
        }
        a := a + 1;
      }
    }

    /** One pass of findHiddenParameters' loop with `left` iterations to
        go: it either stops with the outcome the loop gives from here, or
        leaves the parameters, the previous log-likelihood and the NaN flag
        from which the loop goes on with one iteration fewer. */
    method RunIteration(topo: Topology, long: bool, ln: real -> real, ghost step: Params -> Iteration,
                        ghost P: Params, ghost data: seq<seq<int>>, prevLikelihood: real, undefined: bool,
                        ghost left: nat)
      returns (stop: bool, outcome: Outcome, currentLikelihood: real, undefinedNext: bool, ghost next: Params,
               ghost rest: nat)
      requires Between(topo, data) && Parameters() == P && long == SomePair(data)
      requires step == Iterations(SpaceOf(topo), data) && left > 0
      modifies cellSet, moveSet
      ensures stop ==> RunResult(outcome, Parameters()) == Run(step, P, ln, prevLikelihood, undefined, left)
      ensures !stop ==> Between(topo, data) && Parameters() == next && rest == left - 1
      ensures !stop ==> Run(step, next, ln, currentLikelihood, undefinedNext, rest)
                          == Run(step, P, ln, prevLikelihood, undefined, left)
    {
      ghost var it := step(P);
      assert it == IterationOf(P, SpaceOf(topo), data);
      rest := left - 1;
      RunStep(step, P, ln, prevLikelihood, undefined, left, rest, it);
      var total;
      stop, outcome, total, currentLikelihood, undefinedNext :=
        Iterate(topo, long, ln, P, data, it, prevLikelihood, undefined);
      next := it.next;
    }

    /** findHiddenParameters: the EM loop, run for at most `fuel`
        iterations.  Each iteration runs the forward-backward pass, takes
        the log-likelihood (`ln` stands for Math.log), stops when it is NaN
        or when it is finite and changed by less than 0.01, and otherwise
        sweeps and copies.  The outcome and the parameters left active are
        the ones EM gives; without episodes (the data file could not be
        read) the source fails on its null list. */
    method FindHiddenParameters(topo: Topology, ln: real -> real, fuel: nat) returns (outcome: Outcome)
      requires Between(topo, Data())
      modifies cellSet, moveSet
      ensures !loaded ==> outcome == NoEpisodes && Parameters() == old(Parameters())
      ensures loaded ==> RunResult(outcome, Parameters()) == EM(old(Parameters()), SpaceOf(topo), old(Data()), ln, fuel)
    {
      if !loaded {
        return NoEpisodes;
      }
      ghost var data := Data();
      ghost var step := Iterations(SpaceOf(topo), data);
      ghost var current := Parameters();
      ghost var goal := Run(step, current, ln, 0.0, false, fuel);
      ghost var left := fuel;
      var long := HasLongEpisode();
      var prevLikelihood := 0.0;
      var undefined := false;
      var iteration := 0;
      while iteration < fuel
        invariant 0 <= iteration <= fuel && left == fuel - iteration
        invariant Between(topo, data) && Parameters() == current
        invariant goal == Run(step, current, ln, prevLikelihood, undefined, left)
      {
        var stop, result, currentLikelihood, undefinedNext, next, rest :=
          RunIteration(topo, long, ln, step, current, data, prevLikelihood, undefined, left);
        if stop {
          return result;
        }
        current, prevLikelihood, undefined := next, currentLikelihood, undefinedNext;
        iteration, left := iteration + 1, rest;
      }
      return OutOfFuel;
    }
  }

  /** Staging into an empty map yields what was staged. */
  lemma NoneBefore<K>(m: map<K, real>, r: map<K, real>)
    requires m == map[] + r
    ensures m == r
  {
  }

  /** The next key a walk over a key set visits: any one not yet visited. */
  method AnyKey<K>(todo: set<K>) returns (k: K)
    requires todo != {}
    ensures k in todo
  {
    k :| k in todo;
  }

  /** The loop over emissionProbSum's key set: every reward type's sum over
      the marginal sum of all moves goes into the staging copy, in whatever
      order the keys come. */
  method StageEmissions(cell: Cell, emissionProbSum: map<int, real>, marginalProbSumT: real)
    modifies cell`tempEmissionProb
    ensures cell.tempEmissionProb == old(cell.tempEmissionProb) + Scaled(emissionProbSum, marginalProbSumT)
  {
    ghost var start := cell.tempEmissionProb;
    ScaledExceptEnds(start, emissionProbSum, marginalProbSumT);
    var todo := emissionProbSum.Keys;
    while todo != {}
      invariant todo <= emissionProbSum.Keys
      invariant cell.tempEmissionProb == start + ScaledExcept(emissionProbSum, todo, marginalProbSumT)
      decreases todo
    {
      var rewardType := AnyKey(todo);
      var newEmission := Div(emissionProbSum[rewardType], marginalProbSumT);
      ScaledExceptStep(start, emissionProbSum, todo, rewardType, marginalProbSumT);
      cell.SetTempEmissionProb(rewardType, newEmission);
      todo := todo - {rewardType};
    }
  }

  /** The loop over jointProbSum's key set: every cell's joint sum over the
      marginal sum of all moves but the last, likewise. */
  method StageTransitions(cell: Cell, jointProbSum: map<Pos, real>, marginalProbSumTMinus1: real)
    modifies cell`tempTransitionProb
    ensures cell.tempTransitionProb == old(cell.tempTransitionProb) + Scaled(jointProbSum, marginalProbSumTMinus1)
  {
    ghost var start := cell.tempTransitionProb;
    ScaledExceptEnds(start, jointProbSum, marginalProbSumTMinus1);
    var todo := jointProbSum.Keys;
    while todo != {}
      invariant todo <= jointProbSum.Keys
      invariant cell.tempTransitionProb == start + ScaledExcept(jointProbSum, todo, marginalProbSumTMinus1)
      decreases todo
    {
      var c := AnyKey(todo);
      var newTrans := Div(jointProbSum[c], marginalProbSumTMinus1);
      ScaledExceptStep(start, jointProbSum, todo, c, marginalProbSumTMinus1);
      cell.SetTempTransitionProb(c, newTrans);
      todo := todo - {c};
    }
  }
}

# Baum-Welch estimation on a grid: a Dafny model

The program estimates a hidden Markov model of an agent that walks a small grid. It has a 4 × 4 maze in mind.

- The hidden state is the cell the agent stands in.
- The visible symbol at each move is a reward (-1, 0 or 1).
- The parameters are:
  - an initial distribution over cells;
  - a transition distribution for each cell;
  - an emission distribution over rewards for each cell.

The program has three ways to start the parameters:

- `makeGridUniform`: uniform values;
- `makeGridWalls`: random values, with non-zero transitions only to the neighbours no wall blocks;
- `findVisibleParameters`: frequency counts, when the cells of a training file are visible.

`findHiddenParameters` then runs expectation-maximisation (Baum-Welch) until the log-likelihood changes by less than 0.01 or becomes NaN. Each iteration does three things:

1. A forward-backward pass fills each move's α and β caches.
2. The likelihood is read off the last forward row of each episode.
3. A sweep over the cells re-estimates every parameter into temporary storage, which is then copied over the active values.

`OptimisedGrid` runs the same algorithm with every sum restricted to the neighbours of a cell.

The model follows the program's classes and loops:

- `Grids.Grid` is the grid object. Its fields are the grid size, a map from coordinates to `Cells.Cell` objects and the list of `Episodes.Episode` objects. The Java statics `rows`, `columns` and `cells` become these fields.
  - Its methods keep the source's nested row/column loops over cells.
  - Each method is proved against a specification function on values.
  - The methods take a `topo` argument: `FullGrid` for `Grid`, `Neighbours` for `OptimisedGrid`.
- `Cells.Cell`, `Moves.Move` and `Episodes.Episode` are classes. Their fields are the counters, the probability maps, the temporary maps, the α/β caches and the list of moves. Their methods update those fields in place.
- `Walls.Wall` is a value type, since a wall never changes after construction.
- `Inference` holds the specification of the forward-backward recurrences, the pair ("joint") posterior and the likelihood. They are stated over a snapshot `Params` of every cell's parameters, and each sum ranges over `Reach(sp, s)`: every cell for the full grid, the neighbours for the optimised one.
- `Reestimation` holds the specification of the M-step sweep (`Reestimate`) and of the EM loop (`Run`, `EM`).
- `Setup` holds the three initialisers' results as functions.
- `Counting` holds the frequency counts as functions.
- `Parsing` holds the line classification and episode grouping of the data file. `Loading` holds the imperative reader built on it.
- Four modules hold the proofs about these specifications:
  - `Consistency`: the forward-backward identities;
  - `Normalisation`: every re-estimated distribution sums to one;
  - `Restriction`: the neighbour-restricted sums equal the full sums whenever non-adjacent transitions are 0;
  - `Sums`: finite sums.

Probabilities are `real`. A Java division `a/b` is `Sums.Div(a, b)`, which is 0 when `b` is 0.

- In the program every such division by zero is 0/0 and produces NaN.
- The model keeps track, per iteration, of whether a sweep left a NaN that the next likelihood reads (`Reestimation.LeavesNaN`).
- The loop reports `Diverged` exactly where the program's `Double.isNaN` test fires.

## Model

| member | source | states |
|---|---|---|
| Adjacency.AdjacentCells | src/mlap_prog/Grid.java:224-243 | a cell has at most four neighbours |
| Adjacency.AdjacentKeepsCandidates | src/mlap_prog/Grid.java:232-242 | the neighbours are (x+1,y), (x-1,y), (x,y+1), (x,y-1) in that order, each kept only when it lies in the grid |
| Adjacency.AdjacentInGrid | src/mlap_prog/Grid.java:226-240 | every neighbour lies in the grid and differs from the cell; none appears twice |
| Adjacency.AdjacentIffDistanceOne | src/mlap_prog/Grid.java:233-240 | q is a neighbour of p exactly when q is in the grid at Manhattan distance 1 from p |
| Adjacency.AdjacencySymmetric | src/mlap_prog/Grid.java:233-240 | q is a neighbour of p exactly when p is a neighbour of q |
| Adjacency.PositionsMembers | src/mlap_prog/Grid.java:58-61 | the row-major walk over i < rows, j < columns visits exactly the cells of the grid |
| Adjacency.PositionsDistinct | src/mlap_prog/Grid.java:58-61 | that walk visits each cell once |
| Adjacency.PositionsLength | src/mlap_prog/Grid.java:152-158 | the walk has rows × columns steps, the length of the draw array |
| Walls.GettersReturnArguments | src/mlap_prog/Wall.java:7-21 | getFirstCell and getSecondCell return the constructor's arguments |
| Walls.EqualsIsSameCellSet | src/mlap_prog/Wall.java:23-36 | two walls are equal exactly when they join the same unordered pair of cells |
| Walls.EqualsOrderIndependent | src/mlap_prog/Wall.java:29 | Wall(a, b) equals Wall(b, a), both ways round |
| Walls.EqualsReflexive | src/mlap_prog/Wall.java:24-33 | a wall equals itself |
| Walls.EqualsSymmetric | src/mlap_prog/Wall.java:24-33 | equality between two walls is symmetric |
| Walls.EqualsTransitive | src/mlap_prog/Wall.java:24-33 | equality between walls is transitive |
| Walls.NeverEqualsNonWall | src/mlap_prog/Wall.java:34-35 | a wall never equals an object that is not a wall |
| Walls.Contains | src/mlap_prog/Grid.java:187 | the wall list contains w exactly when some element equals w |
| Walls.ContainsOrderIndependent | src/mlap_prog/Grid.java:187 | whether the list blocks a move does not depend on the order of the two cells |
| Cells.Cell.constructor | src/mlap_prog/Cell.java:25-36 | a new cell keeps its coordinates and starts with zero counts, a zero initial value and empty maps |
| Cells.Cell.AddInitialCount | src/mlap_prog/Cell.java:48-51 | the initial count goes up by one |
| Cells.Cell.AddTransitionCount | src/mlap_prog/Cell.java:53-62 | the target's count goes up by one (from absent to 1) and every other target's count is unchanged |
| Cells.Cell.AddEmissionCount | src/mlap_prog/Cell.java:82-91 | the reward's count goes up by one and every other reward's count is unchanged |
| Cells.Cell.GetTotalTransitionCount | src/mlap_prog/Cell.java:64-71 | the loop returns the sum of all transition counts |
| Cells.Cell.GetTotalEmissionCount | src/mlap_prog/Cell.java:73-80 | the loop returns the sum of all emission counts |
| Cells.TotalOfCounts | src/mlap_prog/Cell.java:64-80 | summing the values of a count map in a loop gives the map's total |
| Cells.PutNormalised | src/mlap_prog/Cell.java:97-106 | the put loop overwrites each counted key with count/total and keeps every other entry |
| Cells.NormalisedIsDistribution | src/mlap_prog/Cell.java:94-106 | when the total is positive, the normalised counts sum to one over the counted keys |
| Cells.Cell.UpdateProbFromCount | src/mlap_prog/Cell.java:94-109 | each transition and emission probability becomes count/total over the old map, and the initial becomes count/totalInitial |
| Cells.Cell.SetInitialProb | src/mlap_prog/Cell.java:111-114 | getInitialProb returns the value set |
| Cells.Cell.SetTransitionProb | src/mlap_prog/Cell.java:116-119 | only the given target's entry changes, and getTransitionProb returns the value set |
| Cells.Cell.SetEmissionProb | src/mlap_prog/Cell.java:121-124 | only the given reward's entry changes, and getEmissionProb returns the value set |
| Cells.Cell.SetTempInitialProb | src/mlap_prog/Cell.java:143-146 | the temporary initial changes and the active values do not |
| Cells.Cell.SetTempTransitionProb | src/mlap_prog/Cell.java:148-151 | one temporary transition entry changes and the active values do not |
| Cells.Cell.SetTempEmissionProb | src/mlap_prog/Cell.java:153-156 | one temporary emission entry changes and the active values do not |
| Cells.Cell.CopyTempToActual | src/mlap_prog/Cell.java:159-169 | the active values become the temporary ones, then the temporary initial is 0 and the temporary maps are empty |
| Cells.CompareCells | src/mlap_prog/Cell.java:184-201 | the comparator returns 1 or -1; on distinct cells it returns 1 exactly when the second cell comes first by x, then y |
| Cells.CompareCellsOnDistinct | src/mlap_prog/Cell.java:187-200 | on distinct cells the comparator is antisymmetric and transitive, so it sorts distinct keys by (x, y) |
| Cells.CompareCellsNotAntisymmetricOnEqual | src/mlap_prog/Cell.java:191-196 | a cell compared with itself gives -1, so compare(a, a) is not the negation of compare(a, a) |
| Cells.CompareCellsFixed | src/mlap_prog/Cell.java:187-200 | the corrected comparator returns 0 exactly on equal cells, 1 and -1 by (x, y) order |
| Cells.CompareCellsFixedIsComparator | src/mlap_prog/Cell.java:187-200 | the corrected comparator is antisymmetric, transitive and consistent with equality, and agrees with the source's on distinct cells |
| Moves.Move.constructor | src/mlap_prog/Move.java:12-18 | the move keeps its cell and reward and starts with empty caches |
| Moves.Move.SetForwardProb | src/mlap_prog/Move.java:30-38 | only the given cell's forward value changes |
| Moves.Move.SetBackwardProb | src/mlap_prog/Move.java:40-48 | only the given cell's backward value changes |
| Moves.Move.GetMarginalCellProb | src/mlap_prog/Move.java:51-62 | the loop returns α(c)·β(c) divided by the sum of α·β over the cached cells |
| Moves.MarginalsSumToOne | src/mlap_prog/Move.java:51-62 | when that denominator is non-zero, the marginals over the cached cells sum to one |
| Episodes.Episode.constructor | src/mlap_prog/Episode.java:7 | a new episode has length 0 |
| Episodes.Episode.AddMove | src/mlap_prog/Episode.java:9-12 | the length grows by one, earlier moves are unchanged, and the new last move is fresh with the given cell and reward |
| Episodes.Episode.GetLength | src/mlap_prog/Episode.java:19-22 | the length is the size of getMoves() |
| Episodes.IndexOf | src/mlap_prog/Grid.java:347 | indexOf returns the first position of the move, or -1 exactly when it is absent |
| Episodes.IndexOfDistinct | src/mlap_prog/Grid.java:347 | in a list of distinct moves, the move at t is found at t, so the "all moves but the last" test selects t < size-1 |
| Parsing.RewardValue | src/mlap_prog/Grid.java:607-608 | the reward pattern accepts exactly "0", "1", "-0" and "-1", with values in {-1, 0, 1} |
| Parsing.Classify | src/mlap_prog/Grid.java:607-658 | a line is blank exactly when empty; a visible move has coordinates 0..3; every move has a reward in {-1, 0, 1}; a line is malformed exactly when it matches neither pattern |
| Parsing.ClassifyEntryLine | src/mlap_prog/Grid.java:607-651 | writing a move as "(x,y) r" or "r" and classifying the line gives the move back |
| Parsing.ScanFailsIffMalformed | src/mlap_prog/Grid.java:616-661 | the scan ends in failure exactly when some line is malformed |
| Parsing.GroupFailsIffMalformed | src/mlap_prog/Grid.java:654-657 | reading the file fails exactly when some line is malformed |
| Parsing.GroupWellFormed | src/mlap_prog/Grid.java:618-625 | every episode read has at least one move, and every move can be written back as a line |
| Parsing.MoveLineKeepsEpisodes | src/mlap_prog/Grid.java:616-667 | a move line at the end of the file adds no episode: an episode with no blank line after it is dropped |
| Parsing.BlankLinesCollapse | src/mlap_prog/Grid.java:618-626 | a second blank line closes nothing, because an empty episode is never added |
| Parsing.GroupRender | src/mlap_prog/Grid.java:600-668 | writing non-empty episodes one move per line, each followed by a blank line, and reading them back gives the same episodes |
| Loading.NewCells | src/mlap_prog/Grid.java:28-35 | the constructor's loops create one fresh, pristine cell for each coordinate of the grid |
| Loading.AddEntry | src/mlap_prog/Grid.java:634-652 | adding a move appends exactly its entry to the current episode and leaves the closed episodes unchanged |
| Loading.FailsAt | src/mlap_prog/Grid.java:654-657 | once a line is malformed, reading the whole file fails |
| Loading.ReadLine | src/mlap_prog/Grid.java:616-661 | one step of the read loop either fails, exactly when the file is malformed, or keeps the episodes read so far equal to the grouping of the lines read so far |
| Loading.GetEpisodesFromFile | src/mlap_prog/Grid.java:600-668 | it succeeds exactly when no line is malformed; then the episodes are the grouping of the lines, each non-empty, with distinct fresh moves; on failure nothing is returned |
| Grids.Grid.constructor | src/mlap_prog/Grid.java:22-46 | the grid holds a pristine cell for each coordinate; episodes are loaded exactly when the file exists and is well formed, and are then its grouping |
| Setup.UniformCell | src/mlap_prog/Grid.java:62-77 | one cell gets initial 1/(rows·columns), emissions 1/3 for -1, 0 and 1, and transition 1/(rows·columns) to every cell |
| Setup.UniformTransitions | src/mlap_prog/Grid.java:71-77 | the inner loops store the uniform value for every target cell and keep other entries |
| Setup.UniformInitialSumsToOne | src/mlap_prog/Grid.java:56-63 | the uniform initial distribution sums to one over the grid |
| Setup.UniformRowSumsToOne | src/mlap_prog/Grid.java:70-77 | each uniform transition row sums to one over the grid |
| Setup.UniformEmissionsSumToOne | src/mlap_prog/Grid.java:55-68 | the three uniform emissions are equal and sum to one |
| Setup.UniformReady | src/mlap_prog/Grid.java:53-80 | after makeGridUniform every transition and emission the forward-backward pass reads is stored |
| Grids.Grid.MakeGridUniform | src/mlap_prog/Grid.java:53-80 | the parameters become the uniform ones, and the grid is ready for the EM loop in either topology |
| Setup.WallsFitFourByFour | src/mlap_prog/Grid.java:142-147 | every cell the six walls name lies in the 4 × 4 grid |
| Grids.Grid.NewWalls | src/mlap_prog/Grid.java:141-147 | the wall list is the six walls, in the source's order |
| Grids.Grid.InitialDrawArray | src/mlap_prog/Grid.java:151-158 | the array holds the first rows·columns draws and the total is their sum |
| Grids.Grid.InitialAt | src/mlap_prog/Grid.java:167 | a cell's initial value is its draw (by row-major index) divided by the total |
| Setup.IndexIsRowMajor | src/mlap_prog/Grid.java:160-168 | the running initialIndex at cell (x, y) is x·columns + y |
| Setup.UnblockedOf | src/mlap_prog/Grid.java:184-189 | the filter loop keeps the neighbours that no wall separates from the cell, in order |
| Setup.ValidTransitionsAre | src/mlap_prog/Grid.java:181-189 | the valid transitions are exactly the neighbours that no wall blocks; they are distinct, in the grid and differ from the cell |
| Setup.ValidTransitionsSymmetric | src/mlap_prog/Grid.java:181-189 | q is a valid transition of p exactly when p is one of q |
| Setup.DrawArray | src/mlap_prog/Grid.java:192-198 | the array holds the next draws in order and the total is their sum |
| Setup.WallTarget | src/mlap_prog/Grid.java:206-217 | one target gets the next draw over the total when it is a valid transition, 0 otherwise, and the index advances only on valid ones |
| Setup.WallTransitions | src/mlap_prog/Grid.java:200-219 | the double loop writes the cell's transition row: draw/total for valid targets, 0 for every other cell |
| Setup.WallEmissions | src/mlap_prog/Grid.java:171-178 | the three emissions are the next three draws over their sum |
| Setup.WallsCell | src/mlap_prog/Grid.java:164-219 | one cell gets its initial, emissions and transition row; the number of draws consumed is 3 plus its valid transitions |
| Setup.WallsBlockedIsZero | src/mlap_prog/Grid.java:213-217 | a transition to a non-neighbour or across a wall is exactly 0 |
| Setup.WallsRowSumsToOne | src/mlap_prog/Grid.java:191-219 | when the cell's transition total is positive, its row sums to one |
| Setup.WallsInitialSumsToOne | src/mlap_prog/Grid.java:151-168 | when the initial total is positive, the initial distribution sums to one |
| Setup.WallsEmissionsSumToOne | src/mlap_prog/Grid.java:171-178 | when the emission total is positive, the three emissions sum to one |
| Setup.WallsReady | src/mlap_prog/Grid.java:138-222 | after makeGridWalls every transition and emission the forward-backward pass reads is stored |
| Grids.Grid.MakeGridWalls | src/mlap_prog/Grid.java:138-222 | the parameters become the walled random ones for the given draws, and the grid is ready for the EM loop |
| Counting.CountInto | src/mlap_prog/Grid.java:262-268 | one step of the count loop adds the initial, transition and emission counts of one move, then renormalises |
| Counting.Events | src/mlap_prog/Grid.java:254-274 | an episode's count steps follow its moves; there is a successor for all but the last, and only the first step is first |
| Grids.Grid.CountPass | src/mlap_prog/Grid.java:254-269 | one pass of the pair loop brings the cells' counts to those after one more step |
| Grids.Grid.CountEpisode | src/mlap_prog/Grid.java:251-275 | one episode's loop, plus the final move, brings the counts to those after all of its steps |
| Grids.Grid.FindVisibleParameters | src/mlap_prog/Grid.java:246-278 | the cells' counts and probabilities become the estimate from the observed episodes |
| Counting.EstimateCounters | src/mlap_prog/Grid.java:249-276 | each cell's initial count grows by the episodes of two or more moves that start there, each transition count by the consecutive pairs from it, each emission count by the moves in it with that reward |
| Counting.EstimateProbs | src/mlap_prog/Grid.java:268-275 | a cell no move visits keeps its old values; a visited cell's probabilities are its counts normalised, with the initial divided by the episode count |
| Counting.EstimateDistributions | src/mlap_prog/Grid.java:268-275 | for a visited cell the emission probabilities sum to one, and so do the transition probabilities when it has a transition |
| Counting.EstimateInitialSum | src/mlap_prog/Grid.java:262-268 | the initial probabilities sum to (episodes of two or more moves) / (all episodes) |
| Counting.InitialSumShortfall | src/mlap_prog/Grid.java:254-263 | on two episodes, one of a single move, the initial probabilities sum to 1/2 |
| Counting.EstimateFixedInitialSum | src/mlap_prog/Grid.java:262-263 | counting the first move of every episode makes the initial probabilities sum to one |
| Inference.FwdOverIsSum | src/mlap_prog/Grid.java:517-528 | the forward accumulation loop computes the sum of α(t-1, s')·trans(s' → s) |
| Inference.BwdOverIsSum | src/mlap_prog/Grid.java:563-576 | the backward accumulation loop computes the sum of β(t+1, s')·trans(s → s')·emission(s', r) |
| Inference.ForwardRowIs | src/mlap_prog/Grid.java:492-537 | α at the first move is initial·emission; at a later move it is the previous row pushed through the transitions, times the emission |
| Inference.BackwardRowIs | src/mlap_prog/Grid.java:541-581 | β at the last move is 1 for every cell; earlier it is the next row pulled back through transitions and emissions |
| Inference.ForwardRowKeys | src/mlap_prog/Grid.java:498-536 | every forward row has an entry for exactly the cells of the grid |
| Inference.BackwardRowKeys | src/mlap_prog/Grid.java:546-580 | every backward row has an entry for exactly the cells of the grid |
| Inference.CachesGridShaped | src/mlap_prog/Grid.java:485-583 | every cache the pass leaves has forward and backward entries for exactly the grid's cells |
| Inference.ReachSymmetric | src/mlap_prog/OptimisedGrid.java:51-58 | the cells a sum ranges over are related symmetrically, in both topologies |
| Inference.JointStoredFrom | src/mlap_prog/Grid.java:447-481 | with stored parameters and full caches, every value calcJointProb reads is present |
| Inference.RowOverIsSum | src/mlap_prog/Grid.java:464-477 | the inner loops of the joint denominator compute the sum of pair terms from one cell |
| Inference.DenomOverIsSum | src/mlap_prog/Grid.java:458-479 | the joint denominator's four loops compute the sum of pair terms over every pair the topology allows |
| Inference.LikelihoodStep | src/mlap_prog/Grid.java:422-441 | each episode multiplies the running product by its last forward sum |
| Grids.Grid.ForwardSum | src/mlap_prog/Grid.java:517-528 | the loop over previous cells returns that sum for the cell |
| Grids.Grid.ForwardCell | src/mlap_prog/Grid.java:502-534 | one cell's forward value is initial·emission at the first move, otherwise the sum times the emission |
| Grids.Grid.ForwardMove | src/mlap_prog/Grid.java:494-536 | after the cell loops, a move's forward cache is the first row or the next row of the previous move's cache |
| Grids.Grid.ForwardEpisode | src/mlap_prog/Grid.java:492-537 | the forward loop fills every move's forward cache in order |
| Grids.Grid.BackwardSum | src/mlap_prog/Grid.java:563-576 | the loop over next cells returns that sum for the cell |
| Grids.Grid.BackwardCell | src/mlap_prog/Grid.java:550-578 | one cell's backward value is 1 at the last move, otherwise the sum |
| Grids.Grid.BackwardMove | src/mlap_prog/Grid.java:543-580 | after the cell loops, a move's backward cache is all ones at the last move, otherwise the row before the next move's cache |
| Grids.Grid.BackwardEpisode | src/mlap_prog/Grid.java:541-581 | the backward loop, from the last move down, fills every move's backward cache |
| Grids.Grid.EpisodeForwardBack | src/mlap_prog/Grid.java:489-581 | an episode's caches become the forward and backward rows of its rewards |
| Grids.Grid.CalcForwardBack | src/mlap_prog/Grid.java:485-583 | every episode's caches become Caches(P, data), and the parameters and data are unchanged |
| Grids.Grid.LastForwardTotal | src/mlap_prog/Grid.java:426-437 | the loop sums the last move's forward values over the grid |
| Grids.Grid.GetLikelihood | src/mlap_prog/Grid.java:420-444 | the loop returns the product over episodes of the last forward sums, the likelihood before its logarithm |
| Grids.Grid.PairTermOf | src/mlap_prog/Grid.java:449-455 | the numerator is α(c1)·trans(c1 → c2)·emission(c2, r)·β(c2) from the cells' current values |
| Grids.Grid.PairSum | src/mlap_prog/Grid.java:464-477 | the inner loops sum the pair terms from one cell over the cells the topology allows |
| Grids.Grid.JointDenominatorOf | src/mlap_prog/Grid.java:456-479 | the four loops sum the pair terms over every allowed pair |
| Grids.Grid.CalcJointProb | src/mlap_prog/Grid.java:447-481 | the result is the pair term divided by the joint denominator |
| Consistency.EpisodeCachesLinked | src/mlap_prog/Grid.java:509-577 | consecutive caches of an episode satisfy the forward and backward recurrences |
| Consistency.EpisodeCachesConsistent | src/mlap_prog/Grid.java:485-583 | the caches of an episode form a chain of those recurrences whose last backward row is all ones |
| Consistency.DenominatorIsEvidence | src/mlap_prog/Grid.java:458-479 | the joint denominator of moves t and t+1 equals the sum over cells of α(t)·β(t) |
| Consistency.EvidenceStep | src/mlap_prog/Grid.java:485-583 | the sum of α·β over the grid is the same at consecutive moves |
| Consistency.EvidenceLast | src/mlap_prog/Grid.java:553-556 | at the last move, where β is 1, that sum is the sum of α |
| Consistency.EvidenceAt | src/mlap_prog/Grid.java:426-437 | at every move, the sum of α·β equals the episode's last forward sum, its factor of the likelihood |
| Consistency.CachesEvidence | src/mlap_prog/Grid.java:420-481 | for the caches calcForwardBack leaves, every marginal denominator and every joint denominator of an episode equals its likelihood factor |
| Consistency.MarginalDenominator | src/mlap_prog/Move.java:54-59 | the marginal's denominator over cached cells is the sum of α·β over the grid |
| Normalisation.MarginalsOverGrid | src/mlap_prog/Move.java:51-62 | the marginals of a full cache sum to one over the grid when its denominator is non-zero |
| Normalisation.InitialTotal | src/mlap_prog/Grid.java:335-336 | summed over the grid, the first-move marginals of all episodes add up to the episode count |
| Normalisation.NewInitialSumsToOne | src/mlap_prog/Grid.java:324-387 | the new initial distribution sums to one when every first move's denominator is non-zero |
| Normalisation.PairMarginal | src/mlap_prog/Grid.java:447-481 | summing the joint of (c, n) over the cells n reachable from c gives the marginal of c at the earlier move |
| Normalisation.PairsTotal | src/mlap_prog/Grid.java:370-375 | over an episode, the joint sums from c add up to c's marginals over all moves but the last |
| Normalisation.JointTotal | src/mlap_prog/Grid.java:331-380 | over all episodes, the joint sums from c add up to marginalProbSum_T_minus_1 |
| Normalisation.NewTransitionSumsToOne | src/mlap_prog/Grid.java:396-401 | the new transition row of c sums to one over its reach when marginalProbSum_T_minus_1 is non-zero |
| Normalisation.LikelihoodFactor | src/mlap_prog/Grid.java:440 | a non-zero likelihood has no zero episode factor |
| Normalisation.CachesReestimate | src/mlap_prog/Grid.java:318-404 | after calcForwardBack with a non-zero likelihood, the new initial distribution sums to one, and so does each new transition row whose denominator is non-zero |
| Reestimation.ReestimateAt | src/mlap_prog/Grid.java:385-401 | the new initial is the first-move marginal sum over the episode count, the new emissions are the reward sums over the all-moves marginal sum, and the new transitions are the joint sums over the all-but-last marginal sum |
| Reestimation.ReestimateKeys | src/mlap_prog/Grid.java:318-404 | the sweep stores new parameters for exactly the grid's cells |
| Reestimation.TallyEmissionFacts | src/mlap_prog/Grid.java:350-356 | the emission sums have a key for exactly the rewards seen, and they add up to marginalProbSum_T |
| Reestimation.NewEmissionSumsToOne | src/mlap_prog/Grid.java:389-394 | the new emission row has the rewards seen as keys and sums to one when marginalProbSum_T is non-zero |
| Reestimation.TallyJointFacts | src/mlap_prog/Grid.java:359-378 | jointProbSum has a key for exactly the cells the topology reaches from c (none without episodes), holding the joint sum over all episodes |
| Reestimation.JointsSumToOne | src/mlap_prog/Grid.java:447-481 | the joints of two moves over all allowed pairs sum to one when the denominator is non-zero |
| Reestimation.ReestimateTransKeys | src/mlap_prog/OptimisedGrid.java:190-226 | after a sweep a cell's transition row holds exactly its reach: every cell for Grid, the neighbours for OptimisedGrid |
| Reestimation.ReestimateTransReady | src/mlap_prog/Grid.java:397-401 | after a sweep every transition the next pass reads is stored |
| Reestimation.ReestimateEmissionKeys | src/mlap_prog/Grid.java:389-394 | after a sweep each cell's emission row holds exactly the rewards seen |
| Reestimation.ReestimateEmReady | src/mlap_prog/Grid.java:389-394 | every reward seen has an emission in every cell after a sweep |
| Reestimation.ReestimateReadyFor | src/mlap_prog/Grid.java:385-401 | one re-estimation on at least one episode leaves the parameters ready for the next pass |
| Reestimation.RunStep | src/mlap_prog/Grid.java:300-315 | an undefined likelihood stops the loop with Diverged; a non-zero one within 0.01 of the previous stops it with Converged; otherwise it goes on from the re-estimated parameters |
| Reestimation.RunOutcome | src/mlap_prog/Grid.java:300-315 | Converged reports the logarithm of a non-zero likelihood within 0.01 of the previous one; Diverged happens only after an undefined start, a zero likelihood or a sweep that left a NaN |
| Reestimation.RunKeeps | src/mlap_prog/Grid.java:289-416 | a property every re-estimation keeps holds of the final parameters |
| Reestimation.EMKeepsReady | src/mlap_prog/Grid.java:289-416 | started from ready parameters, the loop ends with ready parameters |
| Grids.Grid.MovesPass | src/mlap_prog/Grid.java:339-357 | the move loop adds c's marginals to the all-moves sum, the all-but-last sum and the per-reward sums |
| Grids.Grid.ObservationJoint | src/mlap_prog/Grid.java:370-375 | the observation loop adds the joints of (c, n) over consecutive moves |
| Grids.Grid.EpisodeJoints | src/mlap_prog/Grid.java:360-378 | the next-cell loops add one episode's joint sums for every cell reachable from c |
| Grids.Grid.EpisodeTally | src/mlap_prog/Grid.java:331-379 | one episode's pass adds its contribution to each of c's five accumulators |
| Grids.Grid.CellTally | src/mlap_prog/Grid.java:324-380 | the episode loop leaves c's accumulators equal to their sums over all episodes |
| Grids.StageEmissions | src/mlap_prog/Grid.java:390-394 | the loop stores each reward's sum over marginalProbSum_T in temporary storage |
| Grids.StageTransitions | src/mlap_prog/Grid.java:397-401 | the loop stores each joint sum over marginalProbSum_T_minus_1 in temporary storage |
| Grids.Grid.SweepCell | src/mlap_prog/Grid.java:322-401 | the cell's temporary values become the re-estimates, the active parameters are unchanged, and the cell reports whether it divided by zero in a way the next pass reads |
| Grids.Grid.Sweep | src/mlap_prog/Grid.java:318-404 | the cell loops leave the active parameters unchanged and the temporary ones equal to the re-estimate |
| Grids.Grid.CopyAll | src/mlap_prog/Grid.java:407-414 | the copy loops make the active parameters the temporary ones and clear the temporary storage |
| Grids.Grid.Expectation | src/mlap_prog/Grid.java:294-297 | the forward-backward pass and the likelihood computed from it |
| Grids.Grid.Maximisation | src/mlap_prog/Grid.java:318-414 | the parameters become the re-estimate from the current caches, and the grid is ready for the next iteration |
| Grids.Grid.Iterate | src/mlap_prog/Grid.java:291-415 | one iteration stops exactly on an undefined likelihood or on a non-zero likelihood within 0.01, and otherwise moves to the re-estimated parameters |
| Grids.Grid.RunIteration | src/mlap_prog/Grid.java:289-416 | each turn of the while loop agrees with the recursive Run |
| Grids.Grid.FindHiddenParameters | src/mlap_prog/Grid.java:281-417 | the outcome and final parameters are those of EM from the starting parameters; without episodes nothing changes |
| Restriction.NearWithinFull | src/mlap_prog/OptimisedGrid.java:51 | a cell's neighbours form a repetition-free part of the grid |
| Restriction.ForwardValueLocal | src/mlap_prog/OptimisedGrid.java:51-62 | when non-adjacent transitions are 0, the forward value summed over neighbours equals the one summed over the whole grid |
| Restriction.BackwardValueLocal | src/mlap_prog/OptimisedGrid.java:93-101 | the same holds for the backward value |
| Restriction.ForwardNextLocal | src/mlap_prog/OptimisedGrid.java:32-66 | so a whole forward row is the same in both topologies |
| Restriction.BackwardNextLocal | src/mlap_prog/OptimisedGrid.java:76-105 | so a whole backward row is the same in both topologies |
| Restriction.ForwardRowLocal | src/mlap_prog/OptimisedGrid.java:26-67 | the forward rows of an episode are the same in both topologies at every move |
| Restriction.BackwardRowLocal | src/mlap_prog/OptimisedGrid.java:71-106 | the backward rows of an episode are the same in both topologies at every move |
| Restriction.CachesLocal | src/mlap_prog/OptimisedGrid.java:19-108 | OptimisedGrid's calcForwardBack leaves the same caches as Grid's |
| Restriction.LikelihoodTopologyFree | src/mlap_prog/Grid.java:420-444 | the likelihood always sums the last forward row over the whole grid |
| Restriction.LikelihoodLocal | src/mlap_prog/OptimisedGrid.java:124-127 | both grids compute the same likelihood |
| Restriction.PairTermBlocked | src/mlap_prog/OptimisedGrid.java:262-269 | a pair term to a non-neighbour is 0 |
| Restriction.JointDenominatorLocal | src/mlap_prog/OptimisedGrid.java:256-272 | the joint denominator over adjacent pairs equals the one over all pairs |
| Restriction.JointLocal | src/mlap_prog/OptimisedGrid.java:245-274 | calcJointProb gives the same value in both grids |
| Restriction.PairsJointLocal | src/mlap_prog/OptimisedGrid.java:196-201 | an episode's joint sum is the same in both grids, and it is 0 towards a non-neighbour |
| Restriction.TallyLocal | src/mlap_prog/OptimisedGrid.java:161-187 | the initial, marginal and emission sums are the same in both grids |
| Restriction.TallyJointLocal | src/mlap_prog/OptimisedGrid.java:189-204 | the joint sums agree wherever looked up, and Grid's is 0 towards a non-neighbour |
| Restriction.ReestimateCellLocal | src/mlap_prog/OptimisedGrid.java:210-226 | each re-estimated initial, transition and emission agrees between the grids, and Grid's transition to a non-neighbour is 0 |
| Restriction.ReestimateLocal | src/mlap_prog/OptimisedGrid.java:148-229 | both sweeps give the same probabilities, and both keep non-adjacent transitions at 0, so the two EM loops stay in step |
| Restriction.WallsLocal | src/mlap_prog/Grid.java:213-217 | makeGridWalls sets every non-adjacent transition to 0 |

## Left out

- Floating point: probabilities are `real`, with no rounding, overflow or underflow.
  - `Math.log` is the parameter `ln` of the loop.
  - A division by zero is `Div(_, 0) = 0`. In the program each such division in a sweep is 0/0 (NaN).
  - `Reestimation.LeavesNaN` records whether one of them reaches the next likelihood:
    - an emission row over a zero marginal sum, always read by the next forward pass;
    - or, when some episode has two or more moves, a transition row over a zero marginal sum.
  - A zero likelihood (log = -Infinity) makes the program's next sweep divide every posterior by 0. `Run` therefore makes the iteration after it undefined.
  - When the loop reports `Diverged`, the model's parameters hold 0 where the program's hold NaN.
- `Double.isNaN`: the loop's NaN test is modelled by the `undefined` flag described above. NaN values are not modelled.
- `java.util.Random`: the draws are the parameter `draw: nat -> nat`. `nextInt(100)` keeping every draw below 100 is not used.
- `makeGridRandom` (Grid.java:82-136) is not modelled. It matches `makeGridWalls` without the wall filter and is not one of the initialisers this model covers.
- File input: the file is given as `Option<seq<string>>` of its lines (`None` when it cannot be opened).
  - `BufferedReader` line splitting is not modelled.
  - The regular expressions are modelled by `Parsing.Classify`. For a visible line, the form is one character, a digit 0-3, a comma, a digit 0-3, one character, a space and a reward.
- Grids.Grid.constructor requires every visible line to name a cell of the grid (`Loading.CellsInRange`). The program otherwise throws an uncaught ArrayIndexOutOfBoundsException. The pattern admits only coordinates 0..3, so for the 4 × 4 grid this always holds.
- Loading an unreadable or malformed file: the program catches the IOException and leaves `episodes` null, so a later estimation call throws a NullPointerException.
  - The model sets `loaded` to false and keeps an empty episode list.
  - `FindHiddenParameters` then returns `NoEpisodes` and changes nothing. `FindVisibleParameters` counts nothing.
- Grids.Grid.FindVisibleParameters requires every move to carry a visible cell (`AllVisible`). The program otherwise calls a method on null and throws.
- Grids.Grid.MakeGridWalls requires the grid to hold the six wall cells (`Setup.WallsFit`, true of the 4 × 4 grid). The program otherwise indexes `cells` out of bounds.
- Getters on missing keys (`getTransitionProb`, `getForwardProb` etc. unboxing null): these are preconditions. Lemmas show the EM loop only reads stored keys (`Setup.UniformReady`, `Setup.WallsReady`, `Reestimation.EMKeepsReady`).
- Integer counters and `rows*columns` are unbounded `nat`; Java `int` overflow is not modelled.
- Termination: the `while(true)` loop has no bound. `Run` and `FindHiddenParameters` carry `fuel` iterations and report `OutOfFuel` when it runs out. The number of iterations the program would take is not modelled.
- EM's monotone likelihood is not claimed.
- `printParameters`, `printCellParamaters` and the timing code are left out. The comparator they use for sorting is modelled as `Cells.CompareCells`.
- `OptimisedGrid` is not a subclass. Each `Grids.Grid` method takes the topology as an argument, since the subclass differs only in the cells each sum ranges over.
- Restriction.ReestimateLocal: states agreement of the two sweeps as equal lookups (`SameProbabilities`), not equal maps. OptimisedGrid's transition rows hold only neighbours, while Grid's hold every cell, with 0 for non-neighbours.
- Normalisation.NewTransitionSumsToOne: requires the marginal sum over all but the last move to be non-zero, and Normalisation.NewInitialSumsToOne requires every first move's denominator to be non-zero. Otherwise the program divides 0 by 0 and the result is NaN, not a distribution.
- Reestimation.NewEmissionSumsToOne and Reestimation.JointsSumToOne: each requires its denominator to be non-zero, for the same reason.
- Setup.WallsRowSumsToOne, Setup.WallsInitialSumsToOne and Setup.WallsEmissionsSumToOne: each requires its random total to be positive. With all draws 0 the program divides 0 by 0.
- Object identity: cells are identified by their coordinates (`Pos`). The program keys its maps by `Cell` objects, of which each coordinate has exactly one.

## Findings

| source | as written | input that shows it | evidently intended | confidence | as-written member | corrected member |
|---|---|---|---|---|---|---|
| src/mlap_prog/Cell.java:187-200 | the sort comparator returns -1 when both cells have the same (x, y), never 0, so compare(a, a) = -1 breaks the Comparator contract | compare(c, c) for any cell c | return 0 for equal coordinates | low: harmless where it is used, since the sorted keys of one transition map are distinct cells (not executed) | Cells.CompareCellsNotAntisymmetricOnEqual | Cells.CompareCellsFixedIsComparator |
| src/mlap_prog/Grid.java:254-268 | findVisibleParameters adds the initial count inside the pair loop, so an episode of one move never counts as a start, yet every initial count is divided by the number of all episodes | two episodes, (0,0) (0,1) and (0,0): the initial probabilities sum to 1/2 | count the first move of every episode, so the initial distribution sums to one | medium: the division by episodes.size() shows a distribution was meant (not executed) | Counting.InitialSumShortfall | Counting.EstimateFixedInitialSum |

The grid methods keep the program's counting in `Grids.Grid.FindVisibleParameters`, since they model the program as written. `Counting.EstimateFixed` is the corrected estimate, and the intended property is proved about it.

/**
 * The mathematics behind the grid's EM estimator (calcForwardBack,
 * calcJointProb, getLogLikelihood and the re-estimation body of
 * findHiddenParameters in src/mlap_prog/Grid.java and
 * src/mlap_prog/OptimisedGrid.java), stated on values: a snapshot of every
 * cell's parameters, the rewards of each episode, and the cached forward and
 * backward values of each move.  The grid classes are proved to compute
 * exactly these functions; the lemmas here say what the functions mean.
 */
module Inference {
  import opened Sums
  import opened Cells
  import opened Adjacency
  import opened Moves

  /** Every cell's active parameters: initial, transition and emission
      probabilities, keyed by cell (and target cell or reward type). */
  datatype Params = Params(
    initial: map<Pos, real>,
    trans: map<Pos, map<Pos, real>>,
    emission: map<Pos, map<int, real>>)

  function Init(P: Params, s: Pos): real
  {
    At(P.initial, s)
  }

  function Tr(P: Params, a: Pos, b: Pos): real
  {
    if a in P.trans then At(P.trans[a], b) else 0.0
  }

  function Em(P: Params, s: Pos, r: int): real
  {
    if s in P.emission then At(P.emission[s], r) else 0.0
  }

  /** Which cells the inner sums of the recurrences visit: every cell of the
      grid (Grid) or only the neighbours of the cell at hand (OptimisedGrid). */
  datatype Topology = FullGrid | Neighbours

  datatype Space = Space(rows: nat, cols: nat, topo: Topology)

  function All(sp: Space): seq<Pos>
  {
    Positions(sp.rows, sp.cols)
  }

  function AllSet(sp: Space): set<Pos>
  {
    PosSet(sp.rows, sp.cols)
  }

  /** The cells an inner sum over "the other cell" ranges over, for cell s. */
  function Reach(sp: Space, s: Pos): seq<Pos>
  {
    match sp.topo
    case FullGrid => All(sp)
    case Neighbours => if InGrid(sp.rows, sp.cols, s) then AdjacentCells(sp.rows, sp.cols, s) else []
  }

  /** Every transition the recurrences look up is stored (the source's
      getTransitionProb unboxes a missing entry and fails). */
  ghost predicate TransReady(P: Params, sp: Space)
  {
    forall p, q :: InGrid(sp.rows, sp.cols, p) && q in Reach(sp, p) ==> p in P.trans && q in P.trans[p]
  }

  /** Every grid cell stores an emission for reward r. */
  ghost predicate EmReady(P: Params, rows: int, cols: int, r: int)
  {
    forall p :: InGrid(rows, cols, p) ==> p in P.emission && r in P.emission[p]
  }

  // ---------------------------------------------------------------------
  // Forward and backward recurrences.

  /** α(0, s) = initial(s) · emission(s, r₀). */
  function ForwardFirst(P: Params, sp: Space, r: int): map<Pos, real>
  {
    map s | s in AllSet(sp) :: Init(P, s) * Em(P, s, r)
  }

  /** Σ over the cells q of xs of α(t−1, q) · trans(q → s), added left to
      right. */
  function FwdOver(P: Params, prev: map<Pos, real>, s: Pos, xs: seq<Pos>): real
  {
    if xs == [] then 0.0
    else FwdOver(P, prev, s, xs[..|xs| - 1]) + At(prev, xs[|xs| - 1]) * Tr(P, xs[|xs| - 1], s)
  }

  /** The forward sum one cell further, for factors already looked up. */
  lemma FwdOverStep(P: Params, prev: map<Pos, real>, s: Pos, xs: seq<Pos>, k: nat, acc: real, a: real, b: real)
    requires k < |xs|
    requires acc == FwdOver(P, prev, s, xs[..k]) && At(prev, xs[k]) == a && Tr(P, xs[k], s) == b
    ensures FwdOver(P, prev, s, xs[..k + 1]) == acc + a * b
  {
    assert xs[..k + 1][..k] == xs[..k];
  }

  lemma FwdOverWhole(P: Params, prev: map<Pos, real>, s: Pos, xs: seq<Pos>)
    ensures FwdOver(P, prev, s, xs[..|xs|]) == FwdOver(P, prev, s, xs)
  {
    assert xs[..|xs|] == xs;
  }

  /** α(t, s) = (Σ over q of α(t−1, q) · trans(q → s)) · emission(s, r_t). */
  function ForwardValue(P: Params, sp: Space, prev: map<Pos, real>, r: int, s: Pos): real
  {
    FwdOver(P, prev, s, Reach(sp, s)) * Em(P, s, r)
  }

  lemma ForwardValueIs(P: Params, sp: Space, prev: map<Pos, real>, r: int, s: Pos, a: real, b: real)
    requires FwdOver(P, prev, s, Reach(sp, s)) == a && Em(P, s, r) == b
    ensures ForwardValue(P, sp, prev, r, s) == a * b
  {
  }

  function ForwardNext(P: Params, sp: Space, prev: map<Pos, real>, r: int): map<Pos, real>
  {
    map s | s in AllSet(sp) :: ForwardValue(P, sp, prev, r, s)
  }

  /** The forward values of every cell at move t of an episode with the
      given rewards. */
  function ForwardRow(P: Params, sp: Space, rewards: seq<int>, t: nat): map<Pos, real>
    requires t < |rewards|
  {
    if t == 0 then ForwardFirst(P, sp, rewards[0])
    else ForwardNext(P, sp, ForwardRow(P, sp, rewards, t - 1), rewards[t])
  }

  /** Σ over the cells q of xs of β(t+1, q) · trans(s → q) · emission(q, r_{t+1}),
      added left to right. */
  function BwdOver(P: Params, next: map<Pos, real>, r: int, s: Pos, xs: seq<Pos>): real
  {
    if xs == [] then 0.0
    else BwdOver(P, next, r, s, xs[..|xs| - 1]) + At(next, xs[|xs| - 1]) * Tr(P, s, xs[|xs| - 1]) * Em(P, xs[|xs| - 1], r)
  }

  lemma BwdOverStep(P: Params, next: map<Pos, real>, r: int, s: Pos, xs: seq<Pos>, k: nat,
                    acc: real, a: real, b: real, c: real)
    requires k < |xs|
    requires acc == BwdOver(P, next, r, s, xs[..k])
    requires At(next, xs[k]) == a && Tr(P, s, xs[k]) == b && Em(P, xs[k], r) == c
    ensures BwdOver(P, next, r, s, xs[..k + 1]) == acc + a * b * c
  {
    assert xs[..k + 1][..k] == xs[..k];
  }

  lemma BwdOverWhole(P: Params, next: map<Pos, real>, r: int, s: Pos, xs: seq<Pos>)
    ensures BwdOver(P, next, r, s, xs[..|xs|]) == BwdOver(P, next, r, s, xs)
  {
    assert xs[..|xs|] == xs;
  }

  /** β(t, s) = Σ over q of β(t+1, q) · trans(s → q) · emission(q, r_{t+1}). */
  function BackwardValue(P: Params, sp: Space, next: map<Pos, real>, r: int, s: Pos): real
  {
    BwdOver(P, next, r, s, Reach(sp, s))
  }

  /** β at the last move: 1 for every cell. */
  function BackwardLast(sp: Space): map<Pos, real>
  {
    map s | s in AllSet(sp) :: 1.0
  }

  function BackwardNext(P: Params, sp: Space, next: map<Pos, real>, r: int): map<Pos, real>
  {
    map s | s in AllSet(sp) :: BackwardValue(P, sp, next, r, s)
  }

  function BackwardRow(P: Params, sp: Space, rewards: seq<int>, t: nat): map<Pos, real>
    requires t < |rewards|
    decreases |rewards| - t
  {
    if t == |rewards| - 1 then BackwardLast(sp)
    else BackwardNext(P, sp, BackwardRow(P, sp, rewards, t + 1), rewards[t + 1])
  }

  /** The terms of the forward and backward sums, as function values. */
  function FwdTerm(P: Params, prev: map<Pos, real>, s: Pos): Pos -> real
  {
    q => At(prev, q) * Tr(P, q, s)
  }

  function BwdTerm(P: Params, next: map<Pos, real>, r: int, s: Pos): Pos -> real
  {
    q => At(next, q) * Tr(P, s, q) * Em(P, q, r)
  }

  lemma {:induction false} FwdOverIsSum(P: Params, prev: map<Pos, real>, s: Pos, xs: seq<Pos>)
    ensures FwdOver(P, prev, s, xs) == Sum(xs, FwdTerm(P, prev, s))
  {
    if xs != [] {
      FwdOverIsSum(P, prev, s, xs[..|xs| - 1]);
    }
  }

  lemma {:induction false} BwdOverIsSum(P: Params, next: map<Pos, real>, r: int, s: Pos, xs: seq<Pos>)
    ensures BwdOver(P, next, r, s, xs) == Sum(xs, BwdTerm(P, next, r, s))
  {
    if xs != [] {
      BwdOverIsSum(P, next, r, s, xs[..|xs| - 1]);
    }
  }

  // ---------------------------------------------------------------------
  // One move's cache, written cell by cell in row-major order.

  /** Which cache a sweep over the cells of one move fills: the forward values
      (from the previous move's, unless it is the first move) or the backward
      values (from the next move's, unless it is the last). */
  datatype Pass =
    | ForwardPass(first: bool, prev: map<Pos, real>, r: int)
    | BackwardPass(last: bool, next: map<Pos, real>, nextReward: int)

  /** The value the pass stores for cell s. */
  function Entry(P: Params, sp: Space, pass: Pass, s: Pos): real
  {
    match pass
    case ForwardPass(first, prev, r) =>
      if first then Init(P, s) * Em(P, s, r) else ForwardValue(P, sp, prev, r, s)
    case BackwardPass(last, next, r) =>
      if last then 1.0 else BackwardValue(P, sp, next, r, s)
  }

  /** The whole map the pass produces. */
  function PassTarget(P: Params, sp: Space, pass: Pass): map<Pos, real>
  {
    match pass
    case ForwardPass(first, prev, r) =>
      if first then ForwardFirst(P, sp, r) else ForwardNext(P, sp, prev, r)
    case BackwardPass(last, next, r) =>
      if last then BackwardLast(sp) else BackwardNext(P, sp, next, r)
  }

  /** Outside the grid the target map holds nothing; inside it, the pass's
      value. */
  lemma PassTargetAt(P: Params, sp: Space, pass: Pass, s: Pos)
    ensures s in PassTarget(P, sp, pass) <==> InGrid(sp.rows, sp.cols, s)
    ensures InGrid(sp.rows, sp.cols, s) ==> PassTarget(P, sp, pass)[s] == Entry(P, sp, pass, s)
  {
    PosSetMembers(sp.rows, sp.cols, s);
  }

  /** Every pass fills exactly the grid. */
  lemma PassTargetKeys(P: Params, sp: Space, pass: Pass)
    ensures Covers(sp.rows, sp.cols, PassTarget(P, sp, pass))
    ensures Within(sp.rows, sp.cols, PassTarget(P, sp, pass))
  {
    forall p ensures p in PassTarget(P, sp, pass) <==> InGrid(sp.rows, sp.cols, p) {
      PassTargetAt(P, sp, pass, p);
    }
  }

  /** ForwardRow unfolded once. */
  lemma ForwardRowIs(P: Params, sp: Space, rewards: seq<int>, t: nat)
    requires t < |rewards|
    ensures t == 0 ==> ForwardRow(P, sp, rewards, t) == ForwardFirst(P, sp, rewards[0])
    ensures t > 0 ==> ForwardRow(P, sp, rewards, t) == ForwardNext(P, sp, ForwardRow(P, sp, rewards, t - 1), rewards[t])
  {
  }

  /** BackwardRow unfolded once. */
  lemma BackwardRowIs(P: Params, sp: Space, rewards: seq<int>, t: nat)
    requires t < |rewards|
    ensures t == |rewards| - 1 ==> BackwardRow(P, sp, rewards, t) == BackwardLast(sp)
    ensures t < |rewards| - 1 ==>
      BackwardRow(P, sp, rewards, t) == BackwardNext(P, sp, BackwardRow(P, sp, rewards, t + 1), rewards[t + 1])
  {
  }

  lemma ForwardRowKeys(P: Params, sp: Space, rewards: seq<int>, t: nat)
    requires t < |rewards|
    ensures Covers(sp.rows, sp.cols, ForwardRow(P, sp, rewards, t))
    ensures Within(sp.rows, sp.cols, ForwardRow(P, sp, rewards, t))
  {
    if t == 0 {
      PassTargetKeys(P, sp, ForwardPass(true, map[], rewards[0]));
    } else {
      PassTargetKeys(P, sp, ForwardPass(false, ForwardRow(P, sp, rewards, t - 1), rewards[t]));
    }
  }

  lemma BackwardRowKeys(P: Params, sp: Space, rewards: seq<int>, t: nat)
    requires t < |rewards|
    ensures Covers(sp.rows, sp.cols, BackwardRow(P, sp, rewards, t))
    ensures Within(sp.rows, sp.cols, BackwardRow(P, sp, rewards, t))
  {
    if t == |rewards| - 1 {
      PassTargetKeys(P, sp, BackwardPass(true, map[], 0));
    } else {
      PassTargetKeys(P, sp, BackwardPass(false, BackwardRow(P, sp, rewards, t + 1), rewards[t + 1]));
    }
  }

  /** m after copying vals at Pos(i, y) for y = 0 .. j-1 (a missing value is
      copied as 0.0). */
  function FillRow(m: map<Pos, real>, vals: map<Pos, real>, i: int, j: nat): map<Pos, real>
  {
    if j == 0 then m else FillRow(m, vals, i, j - 1)[Pos(i, j - 1) := At(vals, Pos(i, j - 1))]
  }

  /** m after copying vals at every cell of rows 0 .. i-1, of cols cells each. */
  function FillGrid(m: map<Pos, real>, vals: map<Pos, real>, i: nat, cols: nat): map<Pos, real>
  {
    if i == 0 then m else FillRow(FillGrid(m, vals, i - 1, cols), vals, i - 1, cols)
  }

  lemma {:induction false} FillRowAt(m: map<Pos, real>, vals: map<Pos, real>, i: int, j: nat, p: Pos)
    ensures p in FillRow(m, vals, i, j) <==> p in m || (p.x == i && 0 <= p.y < j)
    ensures p.x == i && 0 <= p.y < j ==> FillRow(m, vals, i, j)[p] == At(vals, p)
    ensures !(p.x == i && 0 <= p.y < j) && p in m ==> FillRow(m, vals, i, j)[p] == m[p]
  {
    if j > 0 {
      FillRowAt(m, vals, i, j - 1, p);
    }
  }

  lemma {:induction false} FillGridAt(m: map<Pos, real>, vals: map<Pos, real>, i: nat, cols: nat, p: Pos)
    ensures p in FillGrid(m, vals, i, cols) <==> p in m || InGrid(i, cols, p)
    ensures InGrid(i, cols, p) ==> FillGrid(m, vals, i, cols)[p] == At(vals, p)
    ensures !InGrid(i, cols, p) && p in m ==> FillGrid(m, vals, i, cols)[p] == m[p]
  {
    if i > 0 {
      FillGridAt(m, vals, i - 1, cols, p);
      FillRowAt(FillGrid(m, vals, i - 1, cols), vals, i - 1, cols, p);
    }
  }

  /** Copying every cell of a grid-shaped map over a map with no key outside
      the grid yields that map, whatever the old map held. */
  lemma FillGridIs(m: map<Pos, real>, vals: map<Pos, real>, rows: nat, cols: nat)
    requires forall p :: p in m ==> InGrid(rows, cols, p)
    requires forall p :: p in vals <==> InGrid(rows, cols, p)
    ensures FillGrid(m, vals, rows, cols) == vals
  {
    var filled := FillGrid(m, vals, rows, cols);
    forall p ensures p in filled <==> p in vals {
      FillGridAt(m, vals, rows, cols, p);
    }
    forall p | p in filled ensures filled[p] == vals[p] {
      FillGridAt(m, vals, rows, cols, p);
    }
  }

  /** What one move holds once the forward-backward pass has run. */
  datatype MoveVal = MoveVal(reward: int, fwd: map<Pos, real>, bwd: map<Pos, real>)

  function EpisodeCaches(P: Params, sp: Space, rewards: seq<int>): (r: seq<MoveVal>)
    ensures |r| == |rewards|
  {
    seq(|rewards|, t requires 0 <= t < |rewards| =>
      MoveVal(rewards[t], ForwardRow(P, sp, rewards, t), BackwardRow(P, sp, rewards, t)))
  }

  /** The caches of every episode after calcForwardBack. */
  function Caches(P: Params, sp: Space, data: seq<seq<int>>): (r: seq<seq<MoveVal>>)
    ensures |r| == |data|
  {
    seq(|data|, e requires 0 <= e < |data| => EpisodeCaches(P, sp, data[e]))
  }

  /** Both caches of the move have an entry for exactly the grid's cells. */
  ghost predicate GridCache(sp: Space, m: MoveVal)
  {
    Covers(sp.rows, sp.cols, m.fwd) && Within(sp.rows, sp.cols, m.fwd) &&
    Covers(sp.rows, sp.cols, m.bwd) && Within(sp.rows, sp.cols, m.bwd)
  }

  ghost predicate GridShaped(sp: Space, C: seq<seq<MoveVal>>)
  {
    forall a, t :: 0 <= a < |C| && 0 <= t < |C[a]| ==> GridCache(sp, C[a][t])
  }

  /** calcForwardBack leaves a value for every grid cell, and for nothing
      else, in both caches of every move. */
  lemma CachesGridShaped(P: Params, sp: Space, data: seq<seq<int>>)
    ensures GridShaped(sp, Caches(P, sp, data))
  {
    var C := Caches(P, sp, data);
    forall a, t | 0 <= a < |C| && 0 <= t < |C[a]| ensures GridCache(sp, C[a][t]) {
      ForwardRowKeys(P, sp, data[a], t);
      BackwardRowKeys(P, sp, data[a], t);
    }
  }

  // ---------------------------------------------------------------------
  // The joint posterior of two consecutive moves (calcJointProb).

  /** α_t(c1) · trans(c1 → c2) · emission(c2, r_{t+1}) · β_{t+1}(c2). */
  function PairTerm(P: Params, cur: MoveVal, next: MoveVal, c1: Pos, c2: Pos): real
  {
    At(cur.fwd, c1) * Tr(P, c1, c2) * Em(P, c2, next.reward) * At(next.bwd, c2)
  }

  /** Every factor of the pair term for c1 and c2 is stored (the source's
      lookups unbox a missing entry and fail). */
  ghost predicate PairStored(P: Params, cur: MoveVal, next: MoveVal, c1: Pos, c2: Pos)
  {
    c1 in cur.fwd && c2 in next.bwd &&
    c1 in P.trans && c2 in P.trans[c1] && c2 in P.emission && next.reward in P.emission[c2]
  }

  /** Every pair term the topology gives for two consecutive moves is stored. */
  ghost predicate JointStored(P: Params, sp: Space, cur: MoveVal, next: MoveVal)
  {
    forall c1, q :: InGrid(sp.rows, sp.cols, c1) && q in Reach(sp, c1) ==> PairStored(P, cur, next, c1, q)
  }

  /** The row of pair terms from one cell of the grid is stored. */
  lemma JointStoredRow(P: Params, sp: Space, cur: MoveVal, next: MoveVal, c1: Pos)
    requires JointStored(P, sp, cur, next) && InGrid(sp.rows, sp.cols, c1)
    ensures forall q :: q in Reach(sp, c1) ==> PairStored(P, cur, next, c1, q)
  {
  }

  /** The pair terms are stored once the transitions, the emissions for the
      next reward and both caches are. */
  lemma JointStoredFrom(P: Params, sp: Space, cur: MoveVal, next: MoveVal)
    requires TransReady(P, sp) && EmReady(P, sp.rows, sp.cols, next.reward)
    requires Covers(sp.rows, sp.cols, cur.fwd) && Covers(sp.rows, sp.cols, next.bwd)
    ensures JointStored(P, sp, cur, next)
  {
    forall c1, q | InGrid(sp.rows, sp.cols, c1) && q in Reach(sp, c1) ensures PairStored(P, cur, next, c1, q) {
      ReachInGrid(sp, c1, q);
    }
  }

  function PairRow(P: Params, cur: MoveVal, next: MoveVal, c1: Pos): Pos -> real
  {
    c2 => PairTerm(P, cur, next, c1, c2)
  }

  lemma PairTermIs(P: Params, cur: MoveVal, next: MoveVal, c1: Pos, c2: Pos, a: real, b: real, c: real, d: real)
    requires At(cur.fwd, c1) == a && Tr(P, c1, c2) == b && Em(P, c2, next.reward) == c && At(next.bwd, c2) == d
    ensures PairTerm(P, cur, next, c1, c2) == a * b * c * d
  {
  }

  function PairRowSum(P: Params, sp: Space, cur: MoveVal, next: MoveVal): Pos -> real
  {
    c1 => Sum(Reach(sp, c1), PairRow(P, cur, next, c1))
  }

  /** The pair terms from c1 to each cell of xs, added left to right (the
      same sum as Sum(xs, PairRow(P, cur, next, c1)), written without a
      function value). */
  function RowOver(P: Params, cur: MoveVal, next: MoveVal, c1: Pos, xs: seq<Pos>): real
  {
    if xs == [] then 0.0 else RowOver(P, cur, next, c1, xs[..|xs| - 1]) + PairTerm(P, cur, next, c1, xs[|xs| - 1])
  }

  /** The row sums for each cell c1 of xs, added left to right. */
  function DenomOver(P: Params, sp: Space, cur: MoveVal, next: MoveVal, xs: seq<Pos>): real
  {
    if xs == [] then 0.0
    else DenomOver(P, sp, cur, next, xs[..|xs| - 1]) + RowOver(P, cur, next, xs[|xs| - 1], Reach(sp, xs[|xs| - 1]))
  }

  lemma RowOverStep(P: Params, cur: MoveVal, next: MoveVal, c1: Pos, xs: seq<Pos>, k: nat)
    requires k < |xs|
    ensures RowOver(P, cur, next, c1, xs[..k + 1]) == RowOver(P, cur, next, c1, xs[..k]) + PairTerm(P, cur, next, c1, xs[k])
  {
    assert xs[..k + 1][..k] == xs[..k];
  }

  lemma RowOverWhole(P: Params, cur: MoveVal, next: MoveVal, c1: Pos, xs: seq<Pos>)
    ensures RowOver(P, cur, next, c1, xs[..|xs|]) == RowOver(P, cur, next, c1, xs)
  {
    assert xs[..|xs|] == xs;
  }

  lemma DenomOverWhole(P: Params, sp: Space, cur: MoveVal, next: MoveVal, xs: seq<Pos>)
    ensures DenomOver(P, sp, cur, next, xs[..|xs|]) == DenomOver(P, sp, cur, next, xs)
  {
    assert xs[..|xs|] == xs;
  }

  lemma DenomOverStep(P: Params, sp: Space, cur: MoveVal, next: MoveVal, xs: seq<Pos>, k: nat)
    requires k < |xs|
    ensures DenomOver(P, sp, cur, next, xs[..k + 1]) ==
            DenomOver(P, sp, cur, next, xs[..k]) + RowOver(P, cur, next, xs[k], Reach(sp, xs[k]))
  {
    assert xs[..k + 1][..k] == xs[..k];
  }

  lemma {:induction false} RowOverIsSum(P: Params, cur: MoveVal, next: MoveVal, c1: Pos, xs: seq<Pos>)
    ensures RowOver(P, cur, next, c1, xs) == Sum(xs, PairRow(P, cur, next, c1))
  {
    if xs != [] {
      RowOverIsSum(P, cur, next, c1, xs[..|xs| - 1]);
    }
  }

  lemma {:induction false} DenomOverIsSum(P: Params, sp: Space, cur: MoveVal, next: MoveVal, xs: seq<Pos>)
    ensures DenomOver(P, sp, cur, next, xs) == Sum(xs, PairRowSum(P, sp, cur, next))
  {
    if xs != [] {
      var c1 := xs[|xs| - 1];
      DenomOverIsSum(P, sp, cur, next, xs[..|xs| - 1]);
      RowOverIsSum(P, cur, next, c1, Reach(sp, c1));
    }
  }

  /** calcJointProb's denominator: the pair term over every cell c1 and every
      c2 the topology lets c1 reach. */
  function JointDenominator(P: Params, sp: Space, cur: MoveVal, next: MoveVal): real
  {
    Sum(All(sp), PairRowSum(P, sp, cur, next))
  }

  function Joint(P: Params, sp: Space, cur: MoveVal, next: MoveVal, c: Pos, n: Pos): real
  {
    Div(PairTerm(P, cur, next, c, n), JointDenominator(P, sp, cur, next))
  }

  // ---------------------------------------------------------------------
  // The likelihood (getLogLikelihood before its logarithm).

  function LastForwardSum(sp: Space, ev: seq<MoveVal>): real
  {
    if ev == [] then 0.0 else Sum(All(sp), Lookup(ev[|ev| - 1].fwd))
  }

  /** Π over episodes of Σ over cells of α at the episode's last move. */
  function Likelihood(sp: Space, C: seq<seq<MoveVal>>): real
  {
    if C == [] then 1.0 else Likelihood(sp, C[..|C| - 1]) * LastForwardSum(sp, C[|C| - 1])
  }

  /** One more episode multiplies the likelihood by its last forward sum. */
  lemma LikelihoodStep(sp: Space, C: seq<seq<MoveVal>>, n: nat, a: real, b: real)
    requires n < |C|
    requires a == Likelihood(sp, C[..n]) && b == LastForwardSum(sp, C[n])
    ensures a * b == Likelihood(sp, C[..n + 1])
  {
    assert C[..n + 1][..n] == C[..n];
  }

  // ---------------------------------------------------------------------
  // Facts about the sum ranges.

  lemma ReachInGrid(sp: Space, s: Pos, q: Pos)
    requires q in Reach(sp, s)
    ensures InGrid(sp.rows, sp.cols, q)
  {
    if sp.topo == FullGrid {
      PositionsMembers(sp.rows, sp.cols, q);
    } else {
      AdjacentInGrid(sp.rows, sp.cols, s);
    }
  }

  lemma ReachSymmetric(sp: Space, s: Pos, q: Pos)
    requires InGrid(sp.rows, sp.cols, s) && InGrid(sp.rows, sp.cols, q)
    ensures q in Reach(sp, s) <==> s in Reach(sp, q)
  {
    if sp.topo == FullGrid {
      PositionsMembers(sp.rows, sp.cols, q);
      PositionsMembers(sp.rows, sp.cols, s);
    } else {
      AdjacencySymmetric(sp.rows, sp.cols, s, q);
    }
  }

  lemma ReachDistinct(sp: Space, s: Pos)
    ensures Distinct(Reach(sp, s))
  {
    if sp.topo == FullGrid {
      PositionsDistinct(sp.rows, sp.cols);
    } else if InGrid(sp.rows, sp.cols, s) {
      AdjacentInGrid(sp.rows, sp.cols, s);
    }
  }
}

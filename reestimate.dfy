/**
 * The re-estimation body of findHiddenParameters (src/mlap_prog/Grid.java
 * and src/mlap_prog/OptimisedGrid.java) on values.  For each cell the source
 * walks the episodes once and keeps five running sums; `Tally` holds them and
 * `TallyOf` says what they are after the episodes C, added in the order the
 * source adds them.  The new parameters divide those sums, and the EM loop
 * repeats forward-backward, likelihood and re-estimation.
 */
module Reestimation {
  import opened Sums
  import opened Cells
  import opened Adjacency
  import opened Moves
  import opened Inference

  /** P(h = c) at one move (getMarginalCellProb). */
  ghost function Marg(m: MoveVal, c: Pos): real
  {
    MarginalOf(m.fwd, m.bwd, c)
  }

  ghost function MargOf(c: Pos): MoveVal -> real
  {
    m => Marg(m, c)
  }

  /** The reward type of a move: the key of emissionProbSum. */
  function RewardOf(): MoveVal -> int
  {
    (m: MoveVal) => m.reward
  }

  /** P(h₁ = c) for an episode's first move. */
  ghost function FirstMarg(ev: seq<MoveVal>, c: Pos): real
  {
    if ev == [] then 0.0 else Marg(ev[0], c)
  }

  /** Every move but the last: the moves a transition leaves from. */
  function Body(ev: seq<MoveVal>): seq<MoveVal>
  {
    if ev == [] then [] else ev[..|ev| - 1]
  }

  /** Σ over the consecutive moves of one episode of P(h_t = c, h_{t+1} = n). */
  function PairsJoint(P: Params, sp: Space, ev: seq<MoveVal>, c: Pos, n: Pos): real
  {
    if |ev| < 2 then 0.0
    else PairsJoint(P, sp, ev[..|ev| - 1], c, n) + Joint(P, sp, ev[|ev| - 2], ev[|ev| - 1], c, n)
  }

  function PairsJointOf(P: Params, sp: Space, ev: seq<MoveVal>, c: Pos): Pos -> real
  {
    n => PairsJoint(P, sp, ev, c, n)
  }

  /** The five accumulators the source keeps per cell while it walks the
      episodes: initialProbSum, marginalProbSum_T, marginalProbSum_T_minus_1,
      emissionProbSum and jointProbSum. */
  datatype Tally = Tally(initial: real, all: real, body: real, emission: map<int, real>, joint: map<Pos, real>)

  const NoTally := Tally(0.0, 0.0, 0.0, map[], map[])

  /** The accumulators after one more episode ev: its first move's
      posterior, the posteriors of all its moves and of all but its last,
      the posteriors per reward type, and for each cell n the topology lets
      c reach, the episode's joint sum for (c, n). */
  ghost function AddEpisode(P: Params, sp: Space, T: Tally, ev: seq<MoveVal>, c: Pos): Tally
  {
    Tally(T.initial + FirstMarg(ev, c), T.all + Sum(ev, MargOf(c)), T.body + Sum(Body(ev), MargOf(c)),
          AddEach(T.emission, ev, RewardOf(), MargOf(c)), AddEach(T.joint, Reach(sp, c), Id(), PairsJointOf(P, sp, ev, c)))
  }

  /** The accumulators for cell c after the episodes C. */
  ghost function TallyOf(P: Params, sp: Space, C: seq<seq<MoveVal>>, c: Pos): Tally
  {
    if C == [] then NoTally else AddEpisode(P, sp, TallyOf(P, sp, C[..|C| - 1], c), C[|C| - 1], c)
  }

  /** The map whose entries are those of m divided by d. */
  function Scaled<K>(m: map<K, real>, d: real): (r: map<K, real>)
    ensures r.Keys == m.Keys
    ensures forall k :: k in r ==> r[k] == Div(m[k], d)
  {
    map k | k in m :: Div(m[k], d)
  }

  /** What a loop over the key set of m that stores each entry divided by d
      has stored while the keys todo are still to come. */
  function ScaledExcept<K>(m: map<K, real>, todo: set<K>, d: real): (r: map<K, real>)
    ensures r.Keys == m.Keys - todo
  {
    map k | k in m && k !in todo :: Div(m[k], d)
  }

  /** Storing key k's entry takes k off the keys still to come. */
  lemma ScaledExceptStep<K>(start: map<K, real>, m: map<K, real>, todo: set<K>, k: K, d: real)
    requires k in todo && todo <= m.Keys
    ensures (start + ScaledExcept(m, todo, d))[k := Div(m[k], d)] == start + ScaledExcept(m, todo - {k}, d)
  {
  }

  /** Before the loop nothing is stored; after it, every entry is. */
  lemma ScaledExceptEnds<K>(start: map<K, real>, m: map<K, real>, d: real)
    ensures start + ScaledExcept(m, m.Keys, d) == start
    ensures ScaledExcept(m, {}, d) == Scaled(m, d)
  {
  }

  /** The parameters one EM sweep writes from parameters P and caches C: the
      initial sum over the number of episodes, each emission sum over the
      marginal sum of every move, each joint sum over the marginal sum of
      every move but the last. */
  ghost function Reestimate(P: Params, sp: Space, C: seq<seq<MoveVal>>): Params
  {
    Params(
      map c | c in AllSet(sp) :: Div(TallyOf(P, sp, C, c).initial, |C| as real),
      map c | c in AllSet(sp) :: Scaled(TallyOf(P, sp, C, c).joint, TallyOf(P, sp, C, c).body),
      map c | c in AllSet(sp) :: Scaled(TallyOf(P, sp, C, c).emission, TallyOf(P, sp, C, c).all))
  }

  /** Some episode has two moves or more, so the forward pass reads a
      transition. */
  predicate SomePair<T>(d: seq<seq<T>>)
  {
    exists a :: 0 <= a < |d| && |d[a]| >= 2
  }

  /** The caches have the shape of the episodes they were computed for. */
  lemma CachesSomePair(P: Params, sp: Space, data: seq<seq<int>>)
    ensures SomePair(Caches(P, sp, data)) == SomePair(data)
  {
    var C := Caches(P, sp, data);
    if SomePair(data) {
      var a :| 0 <= a < |data| && |data[a]| >= 2;
      assert |C[a]| == |data[a]|;
    }
    if SomePair(C) {
      var a :| 0 <= a < |C| && |C[a]| >= 2;
      assert |C[a]| == |data[a]|;
    }
  }

  /** The sweep leaves a NaN that the next likelihood reads: some cell
      divides by zero in a way UndefinedBy counts. */
  ghost predicate LeavesNaN(P: Params, sp: Space, C: seq<seq<MoveVal>>)
  {
    exists c :: c in AllSet(sp) && UndefinedOf(P, sp, C)(c)
  }

  /** One cell's divisions that leave a NaN the next forward pass reads: an
      emission sum over a zero marginal sum (every stored reward is met
      again), or, when some episode has a transition (`long`), a joint sum
      over a zero marginal sum of the moves but the last.  The initial
      division by the number of episodes is zero only when there is no
      episode, and its result is then never read. */
  predicate UndefinedBy(T: Tally, long: bool)
  {
    (T.emission != map[] && T.all == 0.0) || (long && T.joint != map[] && T.body == 0.0)
  }

  /** What the sweep writes for grid cell c. */
  lemma ReestimateAt(P: Params, sp: Space, C: seq<seq<MoveVal>>, c: Pos)
    requires InGrid(sp.rows, sp.cols, c)
    ensures c in Reestimate(P, sp, C).trans && c in Reestimate(P, sp, C).emission
    ensures Init(Reestimate(P, sp, C), c) == Div(TallyOf(P, sp, C, c).initial, |C| as real)
    ensures Reestimate(P, sp, C).trans[c] == Scaled(TallyOf(P, sp, C, c).joint, TallyOf(P, sp, C, c).body)
    ensures Reestimate(P, sp, C).emission[c] == Scaled(TallyOf(P, sp, C, c).emission, TallyOf(P, sp, C, c).all)
  {
    PosSetMembers(sp.rows, sp.cols, c);
  }

  /** The new parameters are stored for exactly the grid's cells. */
  lemma ReestimateKeys(P: Params, sp: Space, C: seq<seq<MoveVal>>)
    ensures Reestimate(P, sp, C).initial.Keys == AllSet(sp)
    ensures Reestimate(P, sp, C).trans.Keys == AllSet(sp)
    ensures Reestimate(P, sp, C).emission.Keys == AllSet(sp)
  {
  }

  /** Which cells divide by zero in the sweep over the episodes C. */
  ghost function UndefinedOf(P: Params, sp: Space, C: seq<seq<MoveVal>>): Pos -> bool
  {
    q => UndefinedBy(TallyOf(P, sp, C, q), SomePair(C))
  }

  /** Every joint term of every pair of consecutive moves can be computed. */
  ghost predicate PairsStored(P: Params, sp: Space, ev: seq<MoveVal>)
  {
    forall t :: 0 <= t < |ev| - 1 ==> JointStored(P, sp, ev[t], ev[t + 1])
  }

  /** What the sweep for cell c reads of one episode is stored: it has a
      first move, c has a marginal at every move, and every joint term can be
      computed. */
  ghost predicate EpisodeStored(P: Params, sp: Space, ev: seq<MoveVal>, c: Pos)
  {
    ev != [] && PairsStored(P, sp, ev) &&
    forall t :: 0 <= t < |ev| ==> c in ev[t].fwd && c in ev[t].bwd && ev[t].fwd.Keys <= ev[t].bwd.Keys
  }

  // ---------------------------------------------------------------------
  // One more element of each running sum.

  lemma TallyStep(P: Params, sp: Space, C: seq<seq<MoveVal>>, n: nat, c: Pos)
    requires n < |C|
    ensures TallyOf(P, sp, C[..n + 1], c) == AddEpisode(P, sp, TallyOf(P, sp, C[..n], c), C[n], c)
  {
    assert C[..n + 1][..n] == C[..n];
  }

  /** The accumulators after episode ev, from the values the loops over ev
      produce: the first move's marginal, the two marginal sums and the two
      maps. */
  lemma AddEpisodeIs(P: Params, sp: Space, T: Tally, ev: seq<MoveVal>, c: Pos,
                     first: real, all: real, body: real, em: map<int, real>, jp: map<Pos, real>)
    requires ev != [] && first == MarginalOf(ev[0].fwd, ev[0].bwd, c)
    requires all == T.all + Sum(ev, MargOf(c)) && body == T.body + Sum(Body(ev), MargOf(c))
    requires em == AddEach(T.emission, ev, RewardOf(), MargOf(c))
    requires jp == AddEach(T.joint, Reach(sp, c), Id(), PairsJointOf(P, sp, ev, c))
    ensures AddEpisode(P, sp, T, ev, c) == Tally(T.initial + first, all, body, em, jp)
  {
  }

  lemma PairsJointStep(P: Params, sp: Space, ev: seq<MoveVal>, c: Pos, n: Pos, t: nat)
    requires t + 1 < |ev|
    ensures PairsJoint(P, sp, ev[..t + 2], c, n) == PairsJoint(P, sp, ev[..t + 1], c, n) + Joint(P, sp, ev[t], ev[t + 1], c, n)
  {
    assert ev[..t + 2][..t + 1] == ev[..t + 1];
  }

  /** The innermost joint loop after the pairs ending at move o. */
  predicate ObservationsSoFar(P: Params, sp: Space, ev: seq<MoveVal>, c: Pos, n: Pos, o: nat, total0: real, total: real)
  {
    o < |ev| && total == total0 + PairsJoint(P, sp, ev[..o + 1], c, n)
  }

  lemma ObservationStep(P: Params, sp: Space, ev: seq<MoveVal>, c: Pos, n: Pos, o: nat, total0: real, total: real, j: real)
    requires ObservationsSoFar(P, sp, ev, c, n, o, total0, total)
    requires o + 1 < |ev| && j == Joint(P, sp, ev[o], ev[o + 1], c, n)
    ensures ObservationsSoFar(P, sp, ev, c, n, o + 1, total0, total + j)
  {
    PairsJointStep(P, sp, ev, c, n, o);
  }

  /** The loop over the cells n after the first k of ns. */
  predicate JointsSoFar(P: Params, sp: Space, ev: seq<MoveVal>, c: Pos, ns: seq<Pos>, k: nat,
                        jp0: map<Pos, real>, jp: map<Pos, real>)
  {
    k <= |ns| && jp == AddEach(jp0, ns[..k], Id(), PairsJointOf(P, sp, ev, c))
  }

  lemma JointsStep(P: Params, sp: Space, ev: seq<MoveVal>, c: Pos, ns: seq<Pos>, k: nat,
                   jp0: map<Pos, real>, jp: map<Pos, real>, total: real)
    requires JointsSoFar(P, sp, ev, c, ns, k, jp0, jp)
    requires k < |ns| && total == At(jp, ns[k]) + PairsJoint(P, sp, ev, c, ns[k])
    ensures JointsSoFar(P, sp, ev, c, ns, k + 1, jp0, jp[ns[k] := total])
  {
    AddEachStepIs(jp0, ns, Id(), PairsJointOf(P, sp, ev, c), k, jp, ns[k], total);
  }

  // ---------------------------------------------------------------------
  // What the accumulators hold.

  /** The three running sums of cell c after the first t moves of ev,
      continued from all0, body0 and em0. */
  ghost predicate MovesSoFar(ev: seq<MoveVal>, c: Pos, t: nat, all0: real, body0: real, em0: map<int, real>,
                             all: real, body: real, em: map<int, real>)
  {
    t <= |ev| &&
    all == all0 + Sum(ev[..t], MargOf(c)) &&
    (t < |ev| ==> body == body0 + Sum(ev[..t], MargOf(c))) &&
    (t == |ev| ==> body == body0 + Sum(Body(ev), MargOf(c))) &&
    em == AddEach(em0, ev[..t], RewardOf(), MargOf(c))
  }

  /** One move of the per-episode loop: the move's marginal p is added to
      every sum, to marginalProbSum_T_minus_1 unless the move is the last,
      and to the emission entry e found for its reward r. */
  lemma MovesStep(ev: seq<MoveVal>, c: Pos, t: nat, p: real, r: int, e: real,
                  all0: real, body0: real, em0: map<int, real>, all: real, body: real, em: map<int, real>)
    requires MovesSoFar(ev, c, t, all0, body0, em0, all, body, em)
    requires t < |ev| && p == MarginalOf(ev[t].fwd, ev[t].bwd, c)
    requires r == ev[t].reward && e == At(em, r)
    ensures MovesSoFar(ev, c, t + 1, all0, body0, em0, all + p, if t < |ev| - 1 then body + p else body, em[r := e + p])
  {
    assert p == MargOf(c)(ev[t]);
    SumPrefixStep(ev, t, MargOf(c));
    AddEachStepIs(em0, ev, RewardOf(), MargOf(c), t, em, r, e + p);
  }

  /** The rewards seen in the moves ms. */
  ghost function RewardSet(ms: seq<MoveVal>): set<int>
  {
    set m | m in ms :: RewardOf()(m)
  }

  /** The rewards seen anywhere in the episodes C. */
  ghost function RewardsSeen(C: seq<seq<MoveVal>>): set<int>
  {
    set a, m | 0 <= a < |C| && m in C[a] :: m.reward
  }

  lemma RewardsSeenStep(C: seq<seq<MoveVal>>)
    requires C != []
    ensures RewardsSeen(C) == RewardsSeen(C[..|C| - 1]) + RewardSet(C[|C| - 1])
  {
    var n := |C| - 1;
    forall r | r in RewardsSeen(C) ensures r in RewardsSeen(C[..n]) + RewardSet(C[n]) {
      var a, m :| 0 <= a < |C| && m in C[a] && m.reward == r;
      if a < n {
        assert C[..n][a] == C[a];
      }
    }
    forall r | r in RewardsSeen(C[..n]) ensures r in RewardsSeen(C) {
      var a, m :| 0 <= a < n && m in C[..n][a] && m.reward == r;
      assert C[a] == C[..n][a];
    }
  }

  /** After the episodes C, emissionProbSum holds exactly the rewards seen,
      and its entries add up to marginalProbSum_T. */
  lemma {:induction false} TallyEmissionFacts(P: Params, sp: Space, C: seq<seq<MoveVal>>, c: Pos)
    ensures TallyOf(P, sp, C, c).emission.Keys == RewardsSeen(C)
    ensures SetSum(TallyOf(P, sp, C, c).emission.Keys, Lookup(TallyOf(P, sp, C, c).emission)) == TallyOf(P, sp, C, c).all
  {
    if C != [] {
      var init := C[..|C| - 1];
      TallyEmissionFacts(P, sp, init, c);
      AddEachKeys(TallyOf(P, sp, init, c).emission, C[|C| - 1], RewardOf(), MargOf(c));
      AddEachTotal(TallyOf(P, sp, init, c).emission, C[|C| - 1], RewardOf(), MargOf(c));
      RewardsSeenStep(C);
    }
  }

  /** The new emissions of a cell form a distribution over the rewards seen
      whenever the cell's marginal sum over all moves is not zero. */
  lemma NewEmissionSumsToOne(P: Params, sp: Space, C: seq<seq<MoveVal>>, c: Pos)
    requires TallyOf(P, sp, C, c).all != 0.0
    ensures Scaled(TallyOf(P, sp, C, c).emission, TallyOf(P, sp, C, c).all).Keys == RewardsSeen(C)
    ensures SetSum(RewardsSeen(C), Lookup(Scaled(TallyOf(P, sp, C, c).emission, TallyOf(P, sp, C, c).all))) == 1.0
  {
    var T := TallyOf(P, sp, C, c);
    TallyEmissionFacts(P, sp, C, c);
    SetSumNormalised(T.emission.Keys, Lookup(T.emission), Lookup(Scaled(T.emission, T.all)));
  }

  /** Σ over the episodes C of their joint sums for (c, n). */
  function JointSum(P: Params, sp: Space, C: seq<seq<MoveVal>>, c: Pos, n: Pos): real
  {
    if C == [] then 0.0 else JointSum(P, sp, C[..|C| - 1], c, n) + PairsJoint(P, sp, C[|C| - 1], c, n)
  }

  /** After the episodes C, jointProbSum is empty if there are none, and
      otherwise has exactly one entry per cell the topology lets c reach,
      holding the joint sum over all episodes. */
  lemma {:induction false} TallyJointFacts(P: Params, sp: Space, C: seq<seq<MoveVal>>, c: Pos, n: Pos)
    ensures C == [] ==> TallyOf(P, sp, C, c).joint == map[]
    ensures n in TallyOf(P, sp, C, c).joint <==> C != [] && n in Reach(sp, c)
    ensures n in TallyOf(P, sp, C, c).joint ==> TallyOf(P, sp, C, c).joint[n] == JointSum(P, sp, C, c, n)
  {
    if C != [] {
      var init := C[..|C| - 1];
      TallyJointFacts(P, sp, init, c, n);
      ReachDistinct(sp, c);
      AddEachDistinctAt(TallyOf(P, sp, init, c).joint, Reach(sp, c), PairsJointOf(P, sp, C[|C| - 1], c), n);
    }
  }

  /** The joint posterior terms for c1 and every c2 that c1 reaches. */
  function JointRow(P: Params, sp: Space, cur: MoveVal, next: MoveVal, c1: Pos): Pos -> real
  {
    c2 => Joint(P, sp, cur, next, c1, c2)
  }

  function JointRowSum(P: Params, sp: Space, cur: MoveVal, next: MoveVal): Pos -> real
  {
    c1 => Sum(Reach(sp, c1), JointRow(P, sp, cur, next, c1))
  }

  /** The joint posteriors of two consecutive moves, over every pair of
      cells the denominator covers (every pair for Grid, every adjacent pair
      for OptimisedGrid), add up to one when the denominator is not zero. */
  lemma JointsSumToOne(P: Params, sp: Space, cur: MoveVal, next: MoveVal)
    requires JointDenominator(P, sp, cur, next) != 0.0
    ensures Sum(All(sp), JointRowSum(P, sp, cur, next)) == 1.0
  {
    var d := JointDenominator(P, sp, cur, next);
    forall c1 | c1 in All(sp)
      ensures JointRowSum(P, sp, cur, next)(c1) == Div(PairRowSum(P, sp, cur, next)(c1), d)
    {
      SumDiv(Reach(sp, c1), PairRow(P, cur, next, c1), JointRow(P, sp, cur, next, c1), d);
    }
    SumDiv(All(sp), PairRowSum(P, sp, cur, next), JointRowSum(P, sp, cur, next), d);
    assert Div(d, d) == d / d == 1.0;
  }

  // ---------------------------------------------------------------------
  // What the new parameters hold.

  /** After a sweep over at least one episode, each grid cell's new
      transition map has an entry for exactly the cells the topology lets it
      reach: every cell for Grid, the neighbours for OptimisedGrid. */
  lemma ReestimateTransKeys(P: Params, sp: Space, C: seq<seq<MoveVal>>, c: Pos, n: Pos)
    requires C != [] && InGrid(sp.rows, sp.cols, c)
    ensures c in Reestimate(P, sp, C).trans
    ensures n in Reestimate(P, sp, C).trans[c] <==> n in Reach(sp, c)
  {
    PosSetMembers(sp.rows, sp.cols, c);
    TallyJointFacts(P, sp, C, c, n);
  }

  /** So the next forward-backward pass finds every transition it reads. */
  lemma ReestimateTransReady(P: Params, sp: Space, C: seq<seq<MoveVal>>)
    requires C != []
    ensures TransReady(Reestimate(P, sp, C), sp)
  {
    forall p, q | InGrid(sp.rows, sp.cols, p) && q in Reach(sp, p)
      ensures p in Reestimate(P, sp, C).trans && q in Reestimate(P, sp, C).trans[p]
    {
      ReestimateTransKeys(P, sp, C, p, q);
    }
  }

  /** Each grid cell's new emission map has an entry for exactly the rewards
      seen in the episodes. */
  lemma ReestimateEmissionKeys(P: Params, sp: Space, C: seq<seq<MoveVal>>, c: Pos)
    requires InGrid(sp.rows, sp.cols, c)
    ensures c in Reestimate(P, sp, C).emission
    ensures Reestimate(P, sp, C).emission[c].Keys == RewardsSeen(C)
  {
    PosSetMembers(sp.rows, sp.cols, c);
    TallyEmissionFacts(P, sp, C, c);
  }

  /** So the next pass finds the emission of every reward it meets. */
  lemma ReestimateEmReady(P: Params, sp: Space, C: seq<seq<MoveVal>>, r: int)
    requires r in RewardsSeen(C)
    ensures EmReady(Reestimate(P, sp, C), sp.rows, sp.cols, r)
  {
    forall p | InGrid(sp.rows, sp.cols, p)
      ensures p in Reestimate(P, sp, C).emission && r in Reestimate(P, sp, C).emission[p]
    {
      ReestimateEmissionKeys(P, sp, C, p);
    }
  }

  // ---------------------------------------------------------------------
  // The EM loop of findHiddenParameters.

  /** How the loop ends: converged with its last log-likelihood, diverged
      (the likelihood is NaN), out of iterations, or refused because the data
      file could not be read (the source then fails on its null episode
      list). */
  datatype Outcome = Converged(logLikelihood: real) | Diverged | OutOfFuel | NoEpisodes

  datatype RunResult = RunResult(outcome: Outcome, params: Params)

  /** What one iteration computes under parameters P: the likelihood
      (before its logarithm) of the caches P gives, whether the sweep on
      them leaves a NaN that the next likelihood reads, and the re-estimated
      parameters. */
  datatype Iteration = Iteration(likelihood: real, leavesNaN: bool, next: Params)

  ghost function IterationOf(P: Params, sp: Space, data: seq<seq<int>>): Iteration
  {
    var C := Caches(P, sp, data);
    Iteration(Likelihood(Space(sp.rows, sp.cols, FullGrid), C), LeavesNaN(P, sp, C), Reestimate(P, sp, C))
  }

  /** One iteration of the EM loop over the rewards data, as a function of
      the parameters it starts from. */
  ghost function Iterations(sp: Space, data: seq<seq<int>>): Params -> Iteration
  {
    P => IterationOf(P, sp, data)
  }

  /** The loop, with at most `fuel` iterations, each one computed by step.
      `ln` stands for Math.log.  `undefined` says that the likelihood is
      NaN: the previous sweep left a NaN that the forward pass reads, or the
      previous likelihood was 0, so that its sweep divided every posterior
      by 0.  A likelihood of 0 (whose logarithm is minus infinity) never
      passes the convergence test. */
  ghost function Run(step: Params -> Iteration, P: Params, ln: real -> real, prev: real, undefined: bool,
                     fuel: nat): RunResult
    decreases fuel
  {
    if fuel == 0 then RunResult(OutOfFuel, P)
    else if undefined then RunResult(Diverged, P)
    else
      var L := step(P).likelihood;
      if L != 0.0 && Abs(ln(L) - prev) < 0.01 then RunResult(Converged(ln(L)), P)
      else Run(step, step(P).next, ln, ln(L), L == 0.0 || step(P).leavesNaN, fuel - 1)
  }

  /** findHiddenParameters from parameters P on the rewards data: the loop
      starts with a previous log-likelihood of 0 and a defined likelihood. */
  ghost function EM(P: Params, sp: Space, data: seq<seq<int>>, ln: real -> real, fuel: nat): RunResult
  {
    Run(Iterations(sp, data), P, ln, 0.0, false, fuel)
  }

  /** One iteration of the loop, given fuel for it: a likelihood that is
      undefined stops it with no change, a non-zero likelihood whose
      logarithm changed by less than 0.01 stops it converged, and otherwise
      it goes on from the re-estimated parameters with one iteration fewer
      (`rest`). */
  lemma RunStep(step: Params -> Iteration, P: Params, ln: real -> real, prev: real, undefined: bool,
                fuel: nat, rest: nat, it: Iteration)
    requires fuel > 0 && rest == fuel - 1 && it == step(P)
    ensures undefined ==> Run(step, P, ln, prev, undefined, fuel) == RunResult(Diverged, P)
    ensures !undefined && it.likelihood != 0.0 && Abs(ln(it.likelihood) - prev) < 0.01 ==>
      Run(step, P, ln, prev, undefined, fuel) == RunResult(Converged(ln(it.likelihood)), P)
    ensures !undefined && !(it.likelihood != 0.0 && Abs(ln(it.likelihood) - prev) < 0.01) ==>
      Run(step, P, ln, prev, undefined, fuel)
        == Run(step, it.next, ln, ln(it.likelihood), it.likelihood == 0.0 || it.leavesNaN, rest)
  {
  }

  /** A property of parameters that every re-estimation keeps holds of the
      parameters the loop ends with. */
  lemma {:induction false} RunKeeps(step: Params -> Iteration, P: Params, ln: real -> real, prev: real,
                                    undefined: bool, fuel: nat, inv: Params -> bool)
    requires inv(P) && forall Q :: inv(Q) ==> inv(step(Q).next)
    ensures inv(Run(step, P, ln, prev, undefined, fuel).params)
    decreases fuel
  {
    if fuel > 0 && !undefined {
      var L := step(P).likelihood;
      if !(L != 0.0 && Abs(ln(L) - prev) < 0.01) {
        RunKeeps(step, step(P).next, ln, ln(L), L == 0.0 || step(P).leavesNaN, fuel - 1, inv);
      }
    }
  }

  /** How the loop can end.  It converges only on a non-zero likelihood,
      reporting its logarithm, which differs by less than 0.01 from the
      previous one: the starting value when no iteration swept, otherwise
      the one of the iteration that produced the final parameters.  It
      diverges only when it started undefined or when the last sweep had a
      likelihood of 0 or left a NaN. */
  lemma {:induction false} RunOutcome(step: Params -> Iteration, P: Params, ln: real -> real, prev: real,
                                      undefined: bool, fuel: nat)
    ensures var r := Run(step, P, ln, prev, undefined, fuel);
      r.outcome.Converged? ==>
        step(r.params).likelihood != 0.0 && r.outcome.logLikelihood == ln(step(r.params).likelihood) &&
        ((r.params == P && Abs(r.outcome.logLikelihood - prev) < 0.01) ||
         exists Q :: step(Q).next == r.params && Abs(r.outcome.logLikelihood - ln(step(Q).likelihood)) < 0.01)
    ensures var r := Run(step, P, ln, prev, undefined, fuel);
      r.outcome.Diverged? ==>
        (r.params == P && undefined) ||
        exists Q :: step(Q).next == r.params && (step(Q).likelihood == 0.0 || step(Q).leavesNaN)
    ensures Run(step, P, ln, prev, undefined, fuel).outcome != NoEpisodes
    decreases fuel
  {
    if fuel > 0 && !undefined {
      var it := step(P);
      var L := it.likelihood;
      if !(L != 0.0 && Abs(ln(L) - prev) < 0.01) {
        var undefined' := L == 0.0 || it.leavesNaN;
        RunOutcome(step, it.next, ln, ln(L), undefined', fuel - 1);
        var r := Run(step, it.next, ln, ln(L), undefined', fuel - 1);
        assert Run(step, P, ln, prev, undefined, fuel) == r;
        if r.outcome.Converged? && r.params == it.next && Abs(r.outcome.logLikelihood - ln(L)) < 0.01 {
          assert step(P).next == r.params;
        }
        if r.outcome.Diverged? && r.params == it.next && undefined' {
          assert step(P).next == r.params;
        }
      }
    }
  }

  /** Every factor the forward-backward pass and the sweep read under Q is
      stored: a transition for every pair the topology allows and an
      emission for every reward of data, in every grid cell. */
  ghost predicate ReadyFor(Q: Params, sp: Space, data: seq<seq<int>>)
  {
    TransReady(Q, sp) &&
    forall a, t :: 0 <= a < |data| && 0 <= t < |data[a]| ==> EmReady(Q, sp.rows, sp.cols, data[a][t])
  }

  /** One re-estimation from any parameters, on at least one episode,
      leaves the parameters ready for the next iteration. */
  lemma ReestimateReadyFor(Q: Params, sp: Space, data: seq<seq<int>>)
    requires data != []
    ensures ReadyFor(Iterations(sp, data)(Q).next, sp, data)
  {
    var C := Caches(Q, sp, data);
    var R := Reestimate(Q, sp, C);
    assert Iterations(sp, data)(Q).next == R;
    ReestimateTransReady(Q, sp, C);
    forall a, t | 0 <= a < |data| && 0 <= t < |data[a]| ensures EmReady(R, sp.rows, sp.cols, data[a][t]) {
      assert C[a][t].reward == data[a][t];
      assert C[a][t] in C[a];
      ReestimateEmReady(Q, sp, C, data[a][t]);
    }
  }

  /** So the loop, started from ready parameters, ends with ready
      parameters. */
  lemma EMKeepsReady(P: Params, sp: Space, data: seq<seq<int>>, ln: real -> real, fuel: nat)
    requires data != [] && ReadyFor(P, sp, data)
    ensures ReadyFor(EM(P, sp, data, ln, fuel).params, sp, data)
  {
    var inv := (Q: Params) => ReadyFor(Q, sp, data);
    forall Q | inv(Q) ensures inv(Iterations(sp, data)(Q).next) {
      ReestimateReadyFor(Q, sp, data);
    }
    RunKeeps(Iterations(sp, data), P, ln, 0.0, false, fuel, inv);
  }
}

/**
 * What one re-estimation sweep of findHiddenParameters (src/mlap_prog/Grid.java,
 * src/mlap_prog/OptimisedGrid.java) hands the next iteration: when the
 * episodes have a nonzero likelihood, the new initial probabilities add up
 * to one, and so does each cell's new transition row whenever its
 * denominator, the marginal sum over every move but the last, is not zero.
 */
module Normalisation {
  import opened Sums
  import opened Cells
  import opened Adjacency
  import opened Moves
  import opened Inference
  import opened Reestimation
  import opened Consistency

  // ---------------------------------------------------------------------
  // The new initial probabilities.

  /** The posteriors of one move, over the grid, add up to one. */
  lemma MarginalsOverGrid(sp: Space, m: MoveVal)
    requires Covers(sp.rows, sp.cols, m.fwd) && Within(sp.rows, sp.cols, m.fwd)
    requires Evidence(sp, m) != 0.0
    ensures Sum(All(sp), MarginalTerm(m.fwd, m.bwd)) == 1.0
  {
    MarginalDenominator(sp, m);
    MarginalsSumToOne(m.fwd, m.bwd);
  }

  /** Every episode has a first move, whose forward cache is keyed by the
      grid and whose Σ α·β is not zero. */
  ghost predicate FirstMovesInformative(sp: Space, C: seq<seq<MoveVal>>)
  {
    forall a :: 0 <= a < |C| ==>
      C[a] != [] && Covers(sp.rows, sp.cols, C[a][0].fwd) && Within(sp.rows, sp.cols, C[a][0].fwd) &&
      Evidence(sp, C[a][0]) != 0.0
  }

  ghost function InitialTally(P: Params, sp: Space, C: seq<seq<MoveVal>>): Pos -> real
  {
    c => TallyOf(P, sp, C, c).initial
  }

  ghost function FirstMargOf(ev: seq<MoveVal>): Pos -> real
  {
    c => FirstMarg(ev, c)
  }

  /** Each episode adds one to the total of initialProbSum over the grid. */
  lemma {:induction false} InitialTotal(P: Params, sp: Space, C: seq<seq<MoveVal>>)
    requires FirstMovesInformative(sp, C)
    ensures Sum(All(sp), InitialTally(P, sp, C)) == |C| as real
    decreases |C|
  {
    if C == [] {
      SumZero(All(sp), InitialTally(P, sp, C));
    } else {
      var init, ev := C[..|C| - 1], C[|C| - 1];
      assert forall a :: 0 <= a < |init| ==> init[a] == C[a];
      InitialTotal(P, sp, init);
      forall c | c in All(sp)
        ensures InitialTally(P, sp, C)(c) == InitialTally(P, sp, init)(c) + FirstMargOf(ev)(c)
      {
        assert TallyOf(P, sp, C, c) == AddEpisode(P, sp, TallyOf(P, sp, init, c), ev, c);
      }
      SumAdd(All(sp), InitialTally(P, sp, init), FirstMargOf(ev), InitialTally(P, sp, C));
      SumExt(All(sp), FirstMargOf(ev), MarginalTerm(ev[0].fwd, ev[0].bwd));
      MarginalsOverGrid(sp, ev[0]);
    }
  }

  /** The new initial probabilities form a distribution over the grid. */
  lemma NewInitialSumsToOne(P: Params, sp: Space, C: seq<seq<MoveVal>>)
    requires C != [] && FirstMovesInformative(sp, C)
    ensures Sum(All(sp), Lookup(Reestimate(P, sp, C).initial)) == 1.0
  {
    var Q, n := Reestimate(P, sp, C), |C| as real;
    forall c | c in All(sp) ensures Lookup(Q.initial)(c) == Div(InitialTally(P, sp, C)(c), n) {
      PositionsMembers(sp.rows, sp.cols, c);
      PosSetMembers(sp.rows, sp.cols, c);
    }
    SumDiv(All(sp), InitialTally(P, sp, C), Lookup(Q.initial), n);
    InitialTotal(P, sp, C);
    DivSelf(n);
  }

  // ---------------------------------------------------------------------
  // The new transition rows.

  /** The joint posteriors of a move's cell c with each cell c reaches add
      up to the move's posterior of c. */
  lemma PairMarginal(P: Params, sp: Space, cur: MoveVal, next: MoveVal, c: Pos)
    requires cur.bwd == BackwardNext(P, sp, next.bwd, next.reward)
    requires Covers(sp.rows, sp.cols, cur.fwd) && Within(sp.rows, sp.cols, cur.fwd)
    requires InGrid(sp.rows, sp.cols, c)
    ensures Sum(Reach(sp, c), JointRow(P, sp, cur, next, c)) == Marg(cur, c)
  {
    DenominatorIsEvidence(P, sp, cur, next);
    MarginalDenominator(sp, cur);
    BackwardNextAt(P, sp, next.bwd, next.reward, c);
    PairMarginalAt(P, sp, cur, next, c);
  }

  /** The same, from the two facts it rests on: the joint and the marginal
      share their denominator, and β_t(c) is computed from β_{t+1}. */
  lemma PairMarginalAt(P: Params, sp: Space, cur: MoveVal, next: MoveVal, c: Pos)
    requires JointDenominator(P, sp, cur, next) == SetSum(cur.fwd.Keys, ABTerm(cur.fwd, cur.bwd))
    requires At(cur.bwd, c) == BackwardValue(P, sp, next.bwd, next.reward, c)
    ensures Sum(Reach(sp, c), JointRow(P, sp, cur, next, c)) == Marg(cur, c)
  {
    PairRowIsAB(P, cur, next, c, Reach(sp, c));
    JointRowDiv(P, sp, cur, next, c);
    MargIs(cur, c, Sum(Reach(sp, c), PairRow(P, cur, next, c)), JointDenominator(P, sp, cur, next));
  }

  lemma MargIs(m: MoveVal, c: Pos, x: real, d: real)
    requires At(m.fwd, c) * At(m.bwd, c) == x && SetSum(m.fwd.Keys, ABTerm(m.fwd, m.bwd)) == d
    ensures Marg(m, c) == Div(x, d)
  {
  }

  /** Each joint posterior is its pair term over the denominator, so their
      sum is the row's pair terms over it (both zero when it is zero). */
  lemma JointRowDiv(P: Params, sp: Space, cur: MoveVal, next: MoveVal, c: Pos)
    ensures Sum(Reach(sp, c), JointRow(P, sp, cur, next, c)) ==
            Div(Sum(Reach(sp, c), PairRow(P, cur, next, c)), JointDenominator(P, sp, cur, next))
  {
    var d := JointDenominator(P, sp, cur, next);
    forall n | n in Reach(sp, c) ensures JointRow(P, sp, cur, next, c)(n) == Div(PairRow(P, cur, next, c)(n), d) {
      assert JointRow(P, sp, cur, next, c)(n) == Joint(P, sp, cur, next, c, n);
    }
    if d == 0.0 {
      SumZero(Reach(sp, c), JointRow(P, sp, cur, next, c));
    } else {
      SumDiv(Reach(sp, c), PairRow(P, cur, next, c), JointRow(P, sp, cur, next, c), d);
    }
  }

  lemma BodySnoc(ev: seq<MoveVal>)
    requires ev != []
    ensures ev == Body(ev) + [ev[|ev| - 1]]
  {
  }

  /** Over one chained episode, the joint sums for c and each cell c reaches
      add up to c's posterior summed over every move but the last. */
  lemma {:induction false} PairsTotal(P: Params, sp: Space, ev: seq<MoveVal>, c: Pos)
    requires Chained(P, sp, ev) && InGrid(sp.rows, sp.cols, c)
    ensures Sum(Reach(sp, c), PairsJointOf(P, sp, ev, c)) == Sum(Body(ev), MargOf(c))
    decreases |ev|
  {
    if |ev| < 2 {
      SumZero(Reach(sp, c), PairsJointOf(P, sp, ev, c));
      assert Body(ev) == [];
    } else {
      ChainedPrefix(P, sp, ev, |ev| - 1);
      PairsTotal(P, sp, ev[..|ev| - 1], c);
      assert Linked(P, sp, ev[|ev| - 2], ev[|ev| - 2 + 1]) && GridCache(sp, ev[|ev| - 2]);
      PairMarginal(P, sp, ev[|ev| - 2], ev[|ev| - 1], c);
      PairsTotalStep(P, sp, ev, c);
    }
  }

  /** One more move adds, on both sides, the posterior of c at the move
      before it. */
  lemma PairsTotalStep(P: Params, sp: Space, ev: seq<MoveVal>, c: Pos)
    requires |ev| >= 2
    requires Sum(Reach(sp, c), PairsJointOf(P, sp, ev[..|ev| - 1], c)) == Sum(Body(ev[..|ev| - 1]), MargOf(c))
    requires Sum(Reach(sp, c), JointRow(P, sp, ev[|ev| - 2], ev[|ev| - 1], c)) == Marg(ev[|ev| - 2], c)
    ensures Sum(Reach(sp, c), PairsJointOf(P, sp, ev, c)) == Sum(Body(ev), MargOf(c))
  {
    var init, cur, next := ev[..|ev| - 1], ev[|ev| - 2], ev[|ev| - 1];
    forall n | n in Reach(sp, c)
      ensures PairsJointOf(P, sp, ev, c)(n) == PairsJointOf(P, sp, init, c)(n) + JointRow(P, sp, cur, next, c)(n)
    {
    }
    SumAdd(Reach(sp, c), PairsJointOf(P, sp, init, c), JointRow(P, sp, cur, next, c), PairsJointOf(P, sp, ev, c));
    assert Body(ev) == init;
    BodySnoc(init);
    SumSnoc(Body(init), cur, MargOf(c));
  }

  ghost function JointSumOf(P: Params, sp: Space, C: seq<seq<MoveVal>>, c: Pos): Pos -> real
  {
    n => JointSum(P, sp, C, c, n)
  }

  /** Over chained episodes, jointProbSum's entries for c add up to
      marginalProbSum_T_minus_1 of c. */
  lemma {:induction false} JointTotal(P: Params, sp: Space, C: seq<seq<MoveVal>>, c: Pos)
    requires forall a :: 0 <= a < |C| ==> Chained(P, sp, C[a])
    requires InGrid(sp.rows, sp.cols, c)
    ensures Sum(Reach(sp, c), JointSumOf(P, sp, C, c)) == TallyOf(P, sp, C, c).body
    decreases |C|
  {
    if C == [] {
      SumZero(Reach(sp, c), JointSumOf(P, sp, C, c));
    } else {
      var init, ev := C[..|C| - 1], C[|C| - 1];
      assert forall a :: 0 <= a < |init| ==> init[a] == C[a];
      JointTotal(P, sp, init, c);
      forall n | n in Reach(sp, c)
        ensures JointSumOf(P, sp, C, c)(n) == JointSumOf(P, sp, init, c)(n) + PairsJointOf(P, sp, ev, c)(n)
      {
      }
      SumAdd(Reach(sp, c), JointSumOf(P, sp, init, c), PairsJointOf(P, sp, ev, c), JointSumOf(P, sp, C, c));
      PairsTotal(P, sp, ev, c);
      assert TallyOf(P, sp, C, c) == AddEpisode(P, sp, TallyOf(P, sp, init, c), ev, c);
    }
  }

  /** A grid cell's new transition row is a distribution over the cells it
      reaches whenever its denominator is not zero. */
  lemma NewTransitionSumsToOne(P: Params, sp: Space, C: seq<seq<MoveVal>>, c: Pos)
    requires C != [] && forall a :: 0 <= a < |C| ==> Chained(P, sp, C[a])
    requires InGrid(sp.rows, sp.cols, c) && TallyOf(P, sp, C, c).body != 0.0
    ensures c in Reestimate(P, sp, C).trans
    ensures Sum(Reach(sp, c), Lookup(Reestimate(P, sp, C).trans[c])) == 1.0
  {
    var Q, T := Reestimate(P, sp, C), TallyOf(P, sp, C, c);
    PosSetMembers(sp.rows, sp.cols, c);
    assert Q.trans[c] == Scaled(T.joint, T.body);
    forall n | n in Reach(sp, c) ensures Lookup(Q.trans[c])(n) == Div(JointSumOf(P, sp, C, c)(n), T.body) {
      TallyJointFacts(P, sp, C, c, n);
    }
    SumDiv(Reach(sp, c), JointSumOf(P, sp, C, c), Lookup(Q.trans[c]), T.body);
    JointTotal(P, sp, C, c);
    DivSelf(T.body);
  }

  // ---------------------------------------------------------------------
  // For the caches calcForwardBack leaves.

  /** A nonzero likelihood has no zero factor. */
  lemma {:induction false} LikelihoodFactor(sp: Space, C: seq<seq<MoveVal>>, a: nat)
    requires Likelihood(sp, C) != 0.0 && a < |C|
    ensures LastForwardSum(sp, C[a]) != 0.0
    decreases |C|
  {
    var init := C[..|C| - 1];
    if a < |C| - 1 {
      assert init[a] == C[a];
      LikelihoodFactor(sp, init, a);
    }
  }

  /** When the episodes' rewards have a nonzero likelihood under P, one
      sweep yields initial probabilities that add up to one, and transition
      rows that add up to one wherever the row's denominator is not zero. */
  lemma CachesReestimate(P: Params, sp: Space, data: seq<seq<int>>, c: Pos)
    requires data != [] && forall a :: 0 <= a < |data| ==> data[a] != []
    requires Likelihood(sp, Caches(P, sp, data)) != 0.0
    ensures Sum(All(sp), Lookup(Reestimate(P, sp, Caches(P, sp, data)).initial)) == 1.0
    ensures InGrid(sp.rows, sp.cols, c) && TallyOf(P, sp, Caches(P, sp, data), c).body != 0.0 ==>
      c in Reestimate(P, sp, Caches(P, sp, data)).trans &&
      Sum(Reach(sp, c), Lookup(Reestimate(P, sp, Caches(P, sp, data)).trans[c])) == 1.0
  {
    var C := Caches(P, sp, data);
    forall a | 0 <= a < |C| ensures Consistent(P, sp, C[a]) {
      EpisodeCachesConsistent(P, sp, data[a]);
    }
    forall a | 0 <= a < |C|
      ensures C[a] != [] && Covers(sp.rows, sp.cols, C[a][0].fwd) && Within(sp.rows, sp.cols, C[a][0].fwd)
      ensures Evidence(sp, C[a][0]) != 0.0
    {
      assert GridCache(sp, C[a][0]);
      EvidenceAt(P, sp, C[a], 0);
      LikelihoodFactor(sp, C, a);
    }
    NewInitialSumsToOne(P, sp, C);
    if InGrid(sp.rows, sp.cols, c) && TallyOf(P, sp, C, c).body != 0.0 {
      NewTransitionSumsToOne(P, sp, C, c);
    }
  }
}

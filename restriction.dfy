/**
 * Why OptimisedGrid may sum over neighbours only (src/mlap_prog/OptimisedGrid.java
 * against src/mlap_prog/Grid.java): when no cell moves to a cell that is not
 * one of its neighbours, the restricted forward, backward and joint sums
 * equal the full-grid ones, and one EM sweep over either gives the same
 * probabilities, again with moves to neighbours only.  makeGridWalls gives
 * such parameters.
 */
module Restriction {
  import opened Sums
  import opened Cells
  import opened Adjacency
  import opened Inference
  import opened Reestimation
  import opened Setup

  /** No grid cell moves to a grid cell that is not one of its neighbours. */
  ghost predicate LocalMoves(P: Params, rows: nat, cols: nat)
  {
    forall p, q {:trigger Tr(P, p, q)} :: InGrid(rows, cols, p) && InGrid(rows, cols, q) && q !in AdjacentCells(rows, cols, p) ==>
      Tr(P, p, q) == 0.0
  }

  /** The two topologies over the same grid. */
  function Full(rows: nat, cols: nat): Space
  {
    Space(rows, cols, FullGrid)
  }

  function Near(rows: nat, cols: nat): Space
  {
    Space(rows, cols, Neighbours)
  }

  /** The neighbours of a grid cell are distinct cells of the grid, which
      the full sum visits once each. */
  lemma NearWithinFull(rows: nat, cols: nat, s: Pos)
    requires InGrid(rows, cols, s)
    ensures Distinct(All(Full(rows, cols))) && Distinct(Reach(Near(rows, cols), s))
    ensures forall q :: q in Reach(Near(rows, cols), s) ==> q in All(Full(rows, cols))
  {
    PositionsDistinct(rows, cols);
    AdjacentInGrid(rows, cols, s);
    forall q | q in Reach(Near(rows, cols), s) ensures q in All(Full(rows, cols)) {
      PositionsMembers(rows, cols, q);
    }
  }

  /** α(t, s) over the neighbours of s is α(t, s) over the whole grid. */
  lemma ForwardValueLocal(P: Params, rows: nat, cols: nat, prev: map<Pos, real>, r: int, s: Pos)
    requires LocalMoves(P, rows, cols) && InGrid(rows, cols, s)
    ensures ForwardValue(P, Near(rows, cols), prev, r, s) == ForwardValue(P, Full(rows, cols), prev, r, s)
  {
    var f := FwdTerm(P, prev, s);
    var xs, ys := All(Full(rows, cols)), Reach(Near(rows, cols), s);
    FwdOverIsSum(P, prev, s, xs);
    FwdOverIsSum(P, prev, s, ys);
    NearWithinFull(rows, cols, s);
    forall q | q in xs && q !in ys ensures f(q) == 0.0 {
      PositionsMembers(rows, cols, q);
      AdjacencySymmetric(rows, cols, s, q);
      assert Tr(P, q, s) == 0.0;
    }
    SumRestrict(xs, ys, f);
    var a, e := FwdOver(P, prev, s, xs), Em(P, s, r);
    ForwardValueIs(P, Near(rows, cols), prev, r, s, a, e);
    ForwardValueIs(P, Full(rows, cols), prev, r, s, a, e);
  }

  /** β(t, s) over the neighbours of s is β(t, s) over the whole grid. */
  lemma BackwardValueLocal(P: Params, rows: nat, cols: nat, next: map<Pos, real>, r: int, s: Pos)
    requires LocalMoves(P, rows, cols) && InGrid(rows, cols, s)
    ensures BackwardValue(P, Near(rows, cols), next, r, s) == BackwardValue(P, Full(rows, cols), next, r, s)
  {
    var f := BwdTerm(P, next, r, s);
    var xs, ys := All(Full(rows, cols)), Reach(Near(rows, cols), s);
    BwdOverIsSum(P, next, r, s, xs);
    BwdOverIsSum(P, next, r, s, ys);
    NearWithinFull(rows, cols, s);
    forall q | q in xs && q !in ys ensures f(q) == 0.0 {
      PositionsMembers(rows, cols, q);
      assert Tr(P, s, q) == 0.0;
    }
    SumRestrict(xs, ys, f);
    assert BackwardValue(P, Near(rows, cols), next, r, s) == BwdOver(P, next, r, s, ys);
    assert BackwardValue(P, Full(rows, cols), next, r, s) == BwdOver(P, next, r, s, xs);
  }

  /** A whole forward step agrees. */
  lemma ForwardNextLocal(P: Params, rows: nat, cols: nat, prev: map<Pos, real>, r: int)
    requires LocalMoves(P, rows, cols)
    ensures ForwardNext(P, Near(rows, cols), prev, r) == ForwardNext(P, Full(rows, cols), prev, r)
  {
    forall s | s in AllSet(Full(rows, cols))
      ensures ForwardValue(P, Near(rows, cols), prev, r, s) == ForwardValue(P, Full(rows, cols), prev, r, s)
    {
      PosSetMembers(rows, cols, s);
      ForwardValueLocal(P, rows, cols, prev, r, s);
    }
  }

  /** A whole backward step agrees. */
  lemma BackwardNextLocal(P: Params, rows: nat, cols: nat, next: map<Pos, real>, r: int)
    requires LocalMoves(P, rows, cols)
    ensures BackwardNext(P, Near(rows, cols), next, r) == BackwardNext(P, Full(rows, cols), next, r)
  {
    forall s | s in AllSet(Full(rows, cols))
      ensures BackwardValue(P, Near(rows, cols), next, r, s) == BackwardValue(P, Full(rows, cols), next, r, s)
    {
      PosSetMembers(rows, cols, s);
      BackwardValueLocal(P, rows, cols, next, r, s);
    }
  }

  /** Two topologies over the same grid whose forward steps agree give the
      same forward values at every move, by induction on the move (the
      first move here, the others in ForwardRowsAgreeNext). */
  lemma {:induction false} ForwardRowsAgree(P: Params, sp: Space, sp': Space, rewards: seq<int>, t: nat)
    requires sp.rows == sp'.rows && sp.cols == sp'.cols && t < |rewards|
    requires forall prev, r :: ForwardNext(P, sp, prev, r) == ForwardNext(P, sp', prev, r)
    ensures ForwardRow(P, sp, rewards, t) == ForwardRow(P, sp', rewards, t)
    decreases t, 1
  {
    if t == 0 {
      assert ForwardFirst(P, sp, rewards[0]) == ForwardFirst(P, sp', rewards[0]);
    } else {
      ForwardRowsAgreeNext(P, sp, sp', rewards, t);
    }
  }

  lemma ForwardRowsAgreeNext(P: Params, sp: Space, sp': Space, rewards: seq<int>, t: nat)
    requires sp.rows == sp'.rows && sp.cols == sp'.cols && 0 < t < |rewards|
    requires forall prev, r :: ForwardNext(P, sp, prev, r) == ForwardNext(P, sp', prev, r)
    ensures ForwardRow(P, sp, rewards, t) == ForwardRow(P, sp', rewards, t)
    decreases t, 0
  {
    ForwardRowsAgree(P, sp, sp', rewards, t - 1);
    var prev := ForwardRow(P, sp, rewards, t - 1);
    assert ForwardRow(P, sp, rewards, t) == ForwardNext(P, sp, prev, rewards[t]);
    assert ForwardRow(P, sp', rewards, t) == ForwardNext(P, sp', prev, rewards[t]);
  }

  /** The same from the last move back, for the backward values. */
  lemma {:induction false} BackwardRowsAgree(P: Params, sp: Space, sp': Space, rewards: seq<int>, t: nat)
    requires sp.rows == sp'.rows && sp.cols == sp'.cols && t < |rewards|
    requires forall next, r :: BackwardNext(P, sp, next, r) == BackwardNext(P, sp', next, r)
    ensures BackwardRow(P, sp, rewards, t) == BackwardRow(P, sp', rewards, t)
    decreases |rewards| - t
  {
    if t == |rewards| - 1 {
      assert BackwardLast(sp) == BackwardLast(sp');
    } else {
      BackwardRowsAgree(P, sp, sp', rewards, t + 1);
    }
  }

  /** The forward values of every move agree. */
  lemma ForwardRowLocal(P: Params, rows: nat, cols: nat, rewards: seq<int>, t: nat)
    requires LocalMoves(P, rows, cols) && t < |rewards|
    ensures ForwardRow(P, Near(rows, cols), rewards, t) == ForwardRow(P, Full(rows, cols), rewards, t)
  {
    forall prev, r ensures ForwardNext(P, Near(rows, cols), prev, r) == ForwardNext(P, Full(rows, cols), prev, r) {
      ForwardNextLocal(P, rows, cols, prev, r);
    }
    ForwardRowsAgree(P, Near(rows, cols), Full(rows, cols), rewards, t);
  }

  /** The backward values of every move agree. */
  lemma BackwardRowLocal(P: Params, rows: nat, cols: nat, rewards: seq<int>, t: nat)
    requires LocalMoves(P, rows, cols) && t < |rewards|
    ensures BackwardRow(P, Near(rows, cols), rewards, t) == BackwardRow(P, Full(rows, cols), rewards, t)
  {
    forall next, r ensures BackwardNext(P, Near(rows, cols), next, r) == BackwardNext(P, Full(rows, cols), next, r) {
      BackwardNextLocal(P, rows, cols, next, r);
    }
    BackwardRowsAgree(P, Near(rows, cols), Full(rows, cols), rewards, t);
  }

  /** calcForwardBack leaves the same caches in OptimisedGrid as in Grid. */
  lemma CachesLocal(P: Params, rows: nat, cols: nat, data: seq<seq<int>>)
    requires LocalMoves(P, rows, cols)
    ensures Caches(P, Near(rows, cols), data) == Caches(P, Full(rows, cols), data)
  {
    forall e, t | 0 <= e < |data| && 0 <= t < |data[e]|
      ensures ForwardRow(P, Near(rows, cols), data[e], t) == ForwardRow(P, Full(rows, cols), data[e], t)
      ensures BackwardRow(P, Near(rows, cols), data[e], t) == BackwardRow(P, Full(rows, cols), data[e], t)
    {
      ForwardRowLocal(P, rows, cols, data[e], t);
      BackwardRowLocal(P, rows, cols, data[e], t);
    }
    forall e | 0 <= e < |data|
      ensures EpisodeCaches(P, Near(rows, cols), data[e]) == EpisodeCaches(P, Full(rows, cols), data[e])
    {
    }
  }

  /** The likelihood reads the grid's cells only, whatever the topology. */
  lemma {:induction false} LikelihoodTopologyFree(rows: nat, cols: nat, C: seq<seq<MoveVal>>)
    ensures Likelihood(Near(rows, cols), C) == Likelihood(Full(rows, cols), C)
  {
    if C != [] {
      LikelihoodTopologyFree(rows, cols, C[..|C| - 1]);
    }
  }

  /** Both grids compute the same likelihood of the episodes. */
  lemma LikelihoodLocal(P: Params, rows: nat, cols: nat, data: seq<seq<int>>)
    requires LocalMoves(P, rows, cols)
    ensures Likelihood(Near(rows, cols), Caches(P, Near(rows, cols), data)) ==
            Likelihood(Full(rows, cols), Caches(P, Full(rows, cols), data))
  {
    CachesLocal(P, rows, cols, data);
    LikelihoodTopologyFree(rows, cols, Caches(P, Full(rows, cols), data));
  }

  // ---------------------------------------------------------------------
  // The joint posterior and the re-estimated parameters.

  /** A pair term from c1 to a grid cell that is not its neighbour is 0. */
  lemma PairTermBlocked(P: Params, rows: nat, cols: nat, cur: MoveVal, next: MoveVal, c1: Pos, c2: Pos)
    requires LocalMoves(P, rows, cols) && InGrid(rows, cols, c1) && InGrid(rows, cols, c2)
    requires c2 !in AdjacentCells(rows, cols, c1)
    ensures PairTerm(P, cur, next, c1, c2) == 0.0
  {
    assert Tr(P, c1, c2) == 0.0;
  }

  /** The joint denominator over neighbours is the one over the whole grid. */
  lemma JointDenominatorLocal(P: Params, rows: nat, cols: nat, cur: MoveVal, next: MoveVal)
    requires LocalMoves(P, rows, cols)
    ensures JointDenominator(P, Near(rows, cols), cur, next) == JointDenominator(P, Full(rows, cols), cur, next)
  {
    var near, full := Near(rows, cols), Full(rows, cols);
    var xs := All(full);
    forall c1 | c1 in xs ensures PairRowSum(P, near, cur, next)(c1) == PairRowSum(P, full, cur, next)(c1) {
      PositionsMembers(rows, cols, c1);
      NearWithinFull(rows, cols, c1);
      var f := PairRow(P, cur, next, c1);
      forall c2 | c2 in xs && c2 !in Reach(near, c1) ensures f(c2) == 0.0 {
        PositionsMembers(rows, cols, c2);
        PairTermBlocked(P, rows, cols, cur, next, c1, c2);
      }
      SumRestrict(xs, Reach(near, c1), f);
    }
    SumExt(xs, PairRowSum(P, near, cur, next), PairRowSum(P, full, cur, next));
  }

  lemma JointLocal(P: Params, rows: nat, cols: nat, cur: MoveVal, next: MoveVal, c: Pos, n: Pos)
    requires LocalMoves(P, rows, cols)
    ensures Joint(P, Near(rows, cols), cur, next, c, n) == Joint(P, Full(rows, cols), cur, next, c, n)
  {
    JointDenominatorLocal(P, rows, cols, cur, next);
  }

  lemma JointOfZero(P: Params, sp: Space, cur: MoveVal, next: MoveVal, c: Pos, n: Pos)
    requires PairTerm(P, cur, next, c, n) == 0.0
    ensures Joint(P, sp, cur, next, c, n) == 0.0
  {
  }

  lemma PairsJointLast(P: Params, sp: Space, ev: seq<MoveVal>, c: Pos, n: Pos)
    requires |ev| >= 2
    ensures PairsJoint(P, sp, ev, c, n) ==
      PairsJoint(P, sp, ev[..|ev| - 1], c, n) + Joint(P, sp, ev[|ev| - 2], ev[|ev| - 1], c, n)
  {
  }

  /** Summed over an episode's consecutive moves, the joints agree, and are
      0 towards a grid cell that is not a neighbour. */
  lemma {:induction false} PairsJointLocal(P: Params, rows: nat, cols: nat, ev: seq<MoveVal>, c: Pos, n: Pos)
    requires LocalMoves(P, rows, cols)
    ensures PairsJoint(P, Near(rows, cols), ev, c, n) == PairsJoint(P, Full(rows, cols), ev, c, n)
    ensures InGrid(rows, cols, c) && InGrid(rows, cols, n) && n !in AdjacentCells(rows, cols, c) ==>
      PairsJoint(P, Full(rows, cols), ev, c, n) == 0.0
  {
    if |ev| >= 2 {
      var near, full := Near(rows, cols), Full(rows, cols);
      var k := |ev| - 1;
      var cur, next := ev[k - 1], ev[k];
      PairsJointLocal(P, rows, cols, ev[..k], c, n);
      JointLocal(P, rows, cols, cur, next, c, n);
      PairsJointLast(P, near, ev, c, n);
      PairsJointLast(P, full, ev, c, n);
      if InGrid(rows, cols, c) && InGrid(rows, cols, n) && n !in AdjacentCells(rows, cols, c) {
        PairTermBlocked(P, rows, cols, cur, next, c, n);
        JointOfZero(P, full, cur, next, c, n);
      }
    }
  }

  /** An entry after adding f over distinct keys: the old entry, plus f
      where the key is one of them. */
  lemma AtAddEach(m: map<Pos, real>, ks: seq<Pos>, f: Pos -> real, n: Pos)
    requires Distinct(ks)
    ensures At(AddEach(m, ks, Id(), f), n) == At(m, n) + (if n in ks then f(n) else 0.0)
  {
    AddEachDistinctAt(m, ks, f, n);
  }

  /** One more episode adds its joint sum to the joint entry of every cell
      the topology lets c reach. */
  lemma TallyJointStep(P: Params, sp: Space, C: seq<seq<MoveVal>>, c: Pos, n: Pos)
    requires C != [] && Distinct(Reach(sp, c))
    ensures At(TallyOf(P, sp, C, c).joint, n) ==
      At(TallyOf(P, sp, C[..|C| - 1], c).joint, n) + (if n in Reach(sp, c) then PairsJoint(P, sp, C[|C| - 1], c, n) else 0.0)
  {
    var T, ev := TallyOf(P, sp, C[..|C| - 1], c), C[|C| - 1];
    assert TallyOf(P, sp, C, c) == AddEpisode(P, sp, T, ev, c);
    AtAddEach(T.joint, Reach(sp, c), PairsJointOf(P, sp, ev, c), n);
  }

  /** The accumulators of a cell other than the joint sums do not depend on
      the topology. */
  lemma {:induction false} TallyLocal(P: Params, rows: nat, cols: nat, C: seq<seq<MoveVal>>, c: Pos)
    ensures TallyOf(P, Near(rows, cols), C, c).initial == TallyOf(P, Full(rows, cols), C, c).initial
    ensures TallyOf(P, Near(rows, cols), C, c).all == TallyOf(P, Full(rows, cols), C, c).all
    ensures TallyOf(P, Near(rows, cols), C, c).body == TallyOf(P, Full(rows, cols), C, c).body
    ensures TallyOf(P, Near(rows, cols), C, c).emission == TallyOf(P, Full(rows, cols), C, c).emission
  {
    if C != [] {
      TallyLocal(P, rows, cols, C[..|C| - 1], c);
    }
  }

  /** The joint sums of a grid cell agree entry by entry, and are 0 towards
      every grid cell that is not a neighbour. */
  lemma {:induction false} TallyJointLocal(P: Params, rows: nat, cols: nat, C: seq<seq<MoveVal>>, c: Pos, n: Pos)
    requires LocalMoves(P, rows, cols) && InGrid(rows, cols, c)
    ensures At(TallyOf(P, Near(rows, cols), C, c).joint, n) == At(TallyOf(P, Full(rows, cols), C, c).joint, n)
    ensures InGrid(rows, cols, n) && n !in AdjacentCells(rows, cols, c) ==>
      At(TallyOf(P, Full(rows, cols), C, c).joint, n) == 0.0
  {
    if C != [] {
      var near, full := Near(rows, cols), Full(rows, cols);
      TallyJointLocal(P, rows, cols, C[..|C| - 1], c, n);
      NearWithinFull(rows, cols, c);
      TallyJointStep(P, near, C, c, n);
      TallyJointStep(P, full, C, c, n);
      PairsJointLocal(P, rows, cols, C[|C| - 1], c, n);
      PositionsMembers(rows, cols, n);
      AdjacentInGrid(rows, cols, c);
    }
  }

  /** At n of an entry-wise division. */
  lemma AtScaled(m: map<Pos, real>, d: real, n: Pos)
    ensures At(Scaled(m, d), n) == Div(At(m, n), d)
  {
  }

  /** Two parameter sets that give every probability the same value. */
  ghost predicate SameProbabilities(P: Params, Q: Params)
  {
    (forall c :: Init(P, c) == Init(Q, c)) &&
    (forall c, n :: Tr(P, c, n) == Tr(Q, c, n)) &&
    (forall c, r :: Em(P, c, r) == Em(Q, c, r))
  }

  /** What either sweep writes for one cell c, target n and reward r. */
  lemma ReestimateCellLocal(P: Params, rows: nat, cols: nat, C: seq<seq<MoveVal>>, c: Pos, n: Pos, r: int)
    requires LocalMoves(P, rows, cols)
    ensures var Qn, Qf := Reestimate(P, Near(rows, cols), C), Reestimate(P, Full(rows, cols), C);
      Init(Qn, c) == Init(Qf, c) && Tr(Qn, c, n) == Tr(Qf, c, n) && Em(Qn, c, r) == Em(Qf, c, r) &&
      (InGrid(rows, cols, c) && InGrid(rows, cols, n) && n !in AdjacentCells(rows, cols, c) ==> Tr(Qf, c, n) == 0.0)
  {
    var near, full := Near(rows, cols), Full(rows, cols);
    PosSetMembers(rows, cols, c);
    if InGrid(rows, cols, c) {
      var a, b := TallyOf(P, near, C, c), TallyOf(P, full, C, c);
      TallyLocal(P, rows, cols, C, c);
      TallyJointLocal(P, rows, cols, C, c, n);
      ReestimateAt(P, near, C, c);
      ReestimateAt(P, full, C, c);
      AtScaled(a.joint, a.body, n);
      AtScaled(b.joint, b.body, n);
      assert Tr(Reestimate(P, full, C), c, n) == Div(At(b.joint, n), b.body);
      if InGrid(rows, cols, n) && n !in AdjacentCells(rows, cols, c) {
        assert At(b.joint, n) == 0.0;
        assert Div(0.0, b.body) == 0.0;
      }
    }
  }

  /** One re-estimation from either grid's sums stores the same
      probabilities of every kind, and the new parameters still move to
      neighbours only. */
  lemma ReestimateLocal(P: Params, rows: nat, cols: nat, C: seq<seq<MoveVal>>)
    requires LocalMoves(P, rows, cols)
    ensures SameProbabilities(Reestimate(P, Near(rows, cols), C), Reestimate(P, Full(rows, cols), C))
    ensures LocalMoves(Reestimate(P, Near(rows, cols), C), rows, cols)
    ensures LocalMoves(Reestimate(P, Full(rows, cols), C), rows, cols)
  {
    var Qn, Qf := Reestimate(P, Near(rows, cols), C), Reestimate(P, Full(rows, cols), C);
    forall c ensures Init(Qn, c) == Init(Qf, c) {
      ReestimateCellLocal(P, rows, cols, C, c, c, 0);
    }
    forall c, n ensures Tr(Qn, c, n) == Tr(Qf, c, n) {
      ReestimateCellLocal(P, rows, cols, C, c, n, 0);
    }
    forall c, r ensures Em(Qn, c, r) == Em(Qf, c, r) {
      ReestimateCellLocal(P, rows, cols, C, c, c, r);
    }
    forall c, n | InGrid(rows, cols, c) && InGrid(rows, cols, n) && n !in AdjacentCells(rows, cols, c)
      ensures Tr(Qn, c, n) == 0.0 && Tr(Qf, c, n) == 0.0
    {
      ReestimateCellLocal(P, rows, cols, C, c, n, 0);
    }
  }

  /** makeGridWalls moves every cell to its unblocked neighbours only. */
  lemma WallsLocal(P: Params, rows: nat, cols: nat, draw: nat -> nat)
    ensures LocalMoves(WallsParams(P, rows, cols, draw), rows, cols)
  {
    forall p, q | InGrid(rows, cols, p) && InGrid(rows, cols, q) && q !in AdjacentCells(rows, cols, p)
      ensures Tr(WallsParams(P, rows, cols, draw), p, q) == 0.0
    {
      WallsBlockedIsZero(P, rows, cols, draw, p, q);
    }
  }
}

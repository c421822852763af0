/**
 * The forward-backward identity behind calcForwardBack, calcMarginalProb
 * and calcJointProb (src/mlap_prog/Grid.java, src/mlap_prog/OptimisedGrid.java):
 * once α and β are computed by their recurrences, Σ over the cells of
 * α_t(s)·β_t(s) is the same at every move of an episode, and equals the
 * episode's factor of the likelihood, Σ over the cells of α at the last
 * move.  The same value is the denominator of calcJointProb.
 */
module Consistency {
  import opened Sums
  import opened Cells
  import opened Adjacency
  import opened Moves
  import opened Inference

  /** Σ over the grid's cells of α·β at one move. */
  function Evidence(sp: Space, m: MoveVal): real
  {
    Sum(All(sp), ABTerm(m.fwd, m.bwd))
  }

  /** The cells each cell's inner sums range over, as a function value. */
  function ReachOf(sp: Space): Pos -> seq<Pos>
  {
    s => Reach(sp, s)
  }

  /** The pair terms of two consecutive moves, as a function of both cells. */
  function PairTerms(P: Params, cur: MoveVal, next: MoveVal): (Pos, Pos) -> real
  {
    (c1, c2) => PairTerm(P, cur, next, c1, c2)
  }

  /** β of cur is computed from β of next, and α of next from α of cur. */
  ghost predicate Linked(P: Params, sp: Space, cur: MoveVal, next: MoveVal)
  {
    cur.bwd == BackwardNext(P, sp, next.bwd, next.reward) &&
    next.fwd == ForwardNext(P, sp, cur.fwd, next.reward)
  }

  /** Every move caches exactly the grid's cells, and consecutive moves are
      linked by the recurrences. */
  ghost predicate Chained(P: Params, sp: Space, ev: seq<MoveVal>)
  {
    (forall t :: 0 <= t < |ev| ==> GridCache(sp, ev[t])) &&
    (forall t :: 0 <= t < |ev| - 1 ==> Linked(P, sp, ev[t], ev[t + 1]))
  }

  /** An episode's caches as calcForwardBack leaves them: chained, with β = 1
      at the last move. */
  ghost predicate Consistent(P: Params, sp: Space, ev: seq<MoveVal>)
  {
    Chained(P, sp, ev) && (ev != [] ==> ev[|ev| - 1].bwd == BackwardLast(sp))
  }

  lemma ChainedPrefix(P: Params, sp: Space, ev: seq<MoveVal>, k: nat)
    requires Chained(P, sp, ev) && k <= |ev|
    ensures Chained(P, sp, ev[..k])
  {
    assert forall t :: 0 <= t < k ==> ev[..k][t] == ev[t];
  }

  lemma EpisodeCachesGrid(P: Params, sp: Space, rewards: seq<int>)
    ensures forall t :: 0 <= t < |rewards| ==> GridCache(sp, EpisodeCaches(P, sp, rewards)[t])
  {
    forall t | 0 <= t < |rewards| ensures GridCache(sp, EpisodeCaches(P, sp, rewards)[t]) {
      ForwardRowKeys(P, sp, rewards, t);
      BackwardRowKeys(P, sp, rewards, t);
    }
  }

  lemma EpisodeCachesLinked(P: Params, sp: Space, rewards: seq<int>, t: nat)
    requires t + 1 < |rewards|
    ensures Linked(P, sp, EpisodeCaches(P, sp, rewards)[t], EpisodeCaches(P, sp, rewards)[t + 1])
  {
    var ev := EpisodeCaches(P, sp, rewards);
    var cur, next := ev[t], ev[t + 1];
    assert cur == MoveVal(rewards[t], ForwardRow(P, sp, rewards, t), BackwardRow(P, sp, rewards, t));
    assert next == MoveVal(rewards[t + 1], ForwardRow(P, sp, rewards, t + 1), BackwardRow(P, sp, rewards, t + 1));
    ForwardRowIs(P, sp, rewards, t + 1);
    BackwardRowIs(P, sp, rewards, t);
    assert cur.bwd == BackwardNext(P, sp, next.bwd, next.reward);
    assert next.fwd == ForwardNext(P, sp, cur.fwd, next.reward);
  }

  /** The caches of every episode are consistent. */
  lemma EpisodeCachesConsistent(P: Params, sp: Space, rewards: seq<int>)
    ensures Consistent(P, sp, EpisodeCaches(P, sp, rewards))
  {
    var ev := EpisodeCaches(P, sp, rewards);
    EpisodeCachesGrid(P, sp, rewards);
    forall t | 0 <= t < |ev| - 1 ensures Linked(P, sp, ev[t], ev[t + 1]) {
      EpisodeCachesLinked(P, sp, rewards, t);
    }
    if ev != [] {
      BackwardRowIs(P, sp, rewards, |ev| - 1);
    }
  }

  lemma RowProduct(a: real, b: real, c: real, d: real)
    ensures a * b * c * d == a * (d * b * c)
  {
  }

  lemma ColProduct(a: real, b: real, c: real, d: real)
    ensures a * b * c * d == (c * d) * (a * b)
  {
  }

  /** A pair term of row c1 is α_t(c1) times a term of β_t(c1)'s sum. */
  lemma PairRowTerm(P: Params, cur: MoveVal, next: MoveVal, c1: Pos, q: Pos)
    ensures PairRow(P, cur, next, c1)(q) == At(cur.fwd, c1) * BwdTerm(P, next.bwd, next.reward, c1)(q)
  {
    var a, b, c, d := At(cur.fwd, c1), Tr(P, c1, q), Em(P, q, next.reward), At(next.bwd, q);
    assert PairRow(P, cur, next, c1)(q) == PairTerm(P, cur, next, c1, q) == a * b * c * d;
    assert BwdTerm(P, next.bwd, next.reward, c1)(q) == d * b * c;
    RowProduct(a, b, c, d);
  }

  /** A pair term of column c2 is a term of α_{t+1}(c2)'s sum times
      emission(c2)·β_{t+1}(c2). */
  lemma PairColTerm(P: Params, cur: MoveVal, next: MoveVal, c2: Pos, q: Pos)
    ensures Col(PairTerms(P, cur, next), c2)(q) ==
            (Em(P, c2, next.reward) * At(next.bwd, c2)) * FwdTerm(P, cur.fwd, c2)(q)
  {
    var a, b, c, d := At(cur.fwd, q), Tr(P, q, c2), Em(P, c2, next.reward), At(next.bwd, c2);
    assert Col(PairTerms(P, cur, next), c2)(q) == PairTerm(P, cur, next, q, c2) == a * b * c * d;
    assert FwdTerm(P, cur.fwd, c2)(q) == a * b;
    ColProduct(a, b, c, d);
  }

  /** Row c1's pair terms over any cells xs are α_t(c1) times the terms of
      β_t(c1)'s sum over them. */
  lemma PairRowScaled(P: Params, cur: MoveVal, next: MoveVal, c1: Pos, xs: seq<Pos>)
    ensures Sum(xs, PairRow(P, cur, next, c1)) == At(cur.fwd, c1) * Sum(xs, BwdTerm(P, next.bwd, next.reward, c1))
  {
    forall q | q in xs
      ensures PairRow(P, cur, next, c1)(q) == At(cur.fwd, c1) * BwdTerm(P, next.bwd, next.reward, c1)(q)
    {
      PairRowTerm(P, cur, next, c1, q);
    }
    SumScale(xs, BwdTerm(P, next.bwd, next.reward, c1), PairRow(P, cur, next, c1), At(cur.fwd, c1));
  }

  /** The recurrences' maps hold each grid cell's value. */
  lemma ForwardNextAt(P: Params, sp: Space, prev: map<Pos, real>, r: int, s: Pos)
    requires InGrid(sp.rows, sp.cols, s)
    ensures At(ForwardNext(P, sp, prev, r), s) == ForwardValue(P, sp, prev, r, s)
  {
    PosSetMembers(sp.rows, sp.cols, s);
  }

  lemma BackwardNextAt(P: Params, sp: Space, next: map<Pos, real>, r: int, s: Pos)
    requires InGrid(sp.rows, sp.cols, s)
    ensures At(BackwardNext(P, sp, next, r), s) == BackwardValue(P, sp, next, r, s)
  {
    PosSetMembers(sp.rows, sp.cols, s);
  }

  /** Row c1 of the pair terms adds up to α_t(c1)·β_t(c1). */
  lemma PairRowIsAB(P: Params, cur: MoveVal, next: MoveVal, c1: Pos, xs: seq<Pos>)
    requires At(cur.bwd, c1) == BwdOver(P, next.bwd, next.reward, c1, xs)
    ensures Sum(xs, PairRow(P, cur, next, c1)) == At(cur.fwd, c1) * At(cur.bwd, c1)
  {
    PairRowScaled(P, cur, next, c1, xs);
    BwdOverIsSum(P, next.bwd, next.reward, c1, xs);
  }

  /** Column c2's pair terms over any cells xs are emission(c2)·β_{t+1}(c2)
      times the terms of α_{t+1}(c2)'s sum over them. */
  lemma PairColScaled(P: Params, cur: MoveVal, next: MoveVal, c2: Pos, xs: seq<Pos>)
    ensures Sum(xs, Col(PairTerms(P, cur, next), c2)) ==
            (Em(P, c2, next.reward) * At(next.bwd, c2)) * Sum(xs, FwdTerm(P, cur.fwd, c2))
  {
    forall q | q in xs
      ensures Col(PairTerms(P, cur, next), c2)(q) == (Em(P, c2, next.reward) * At(next.bwd, c2)) * FwdTerm(P, cur.fwd, c2)(q)
    {
      PairColTerm(P, cur, next, c2, q);
    }
    SumScale(xs, FwdTerm(P, cur.fwd, c2), Col(PairTerms(P, cur, next), c2), Em(P, c2, next.reward) * At(next.bwd, c2));
  }

  lemma ColCombine(total: real, e: real, d: real, sum: real, fv: real)
    requires total == (e * d) * sum && fv == sum * e
    ensures total == fv * d
  {
  }

  /** Column c2 of the pair terms adds up to α_{t+1}(c2)·β_{t+1}(c2). */
  lemma PairColIsAB(P: Params, cur: MoveVal, next: MoveVal, c2: Pos, xs: seq<Pos>)
    requires At(next.fwd, c2) == FwdOver(P, cur.fwd, c2, xs) * Em(P, c2, next.reward)
    ensures Sum(xs, Col(PairTerms(P, cur, next), c2)) == At(next.fwd, c2) * At(next.bwd, c2)
  {
    PairColScaled(P, cur, next, c2, xs);
    FwdOverIsSum(P, cur.fwd, c2, xs);
    ColCombine(Sum(xs, Col(PairTerms(P, cur, next), c2)), Em(P, c2, next.reward), At(next.bwd, c2),
               Sum(xs, FwdTerm(P, cur.fwd, c2)), At(next.fwd, c2));
  }

  /** Column c2's sum, as the column-by-column sum of all pair terms sees
      it, is α_{t+1}(c2)·β_{t+1}(c2). */
  lemma ColIsAB(P: Params, sp: Space, cur: MoveVal, next: MoveVal, c2: Pos)
    requires At(next.fwd, c2) == ForwardValue(P, sp, cur.fwd, next.reward, c2)
    ensures ColsWithin(PairTerms(P, cur, next), ReachOf(sp))(c2) == ABTerm(next.fwd, next.bwd)(c2)
  {
    PairColIsAB(P, cur, next, c2, Reach(sp, c2));
    var v := At(next.fwd, c2) * At(next.bwd, c2);
    assert ABTerm(next.fwd, next.bwd)(c2) == v;
    assert ColsWithin(PairTerms(P, cur, next), ReachOf(sp))(c2) == Sum(Reach(sp, c2), Col(PairTerms(P, cur, next), c2));
  }

  /** Row c1's sum, as the denominator and as the row-by-row sum of all
      pair terms see it, is α_t(c1)·β_t(c1). */
  lemma RowIsAB(P: Params, sp: Space, cur: MoveVal, next: MoveVal, c1: Pos)
    requires At(cur.bwd, c1) == BackwardValue(P, sp, next.bwd, next.reward, c1)
    ensures PairRowSum(P, sp, cur, next)(c1) == ABTerm(cur.fwd, cur.bwd)(c1)
    ensures RowsWithin(PairTerms(P, cur, next), ReachOf(sp))(c1) == ABTerm(cur.fwd, cur.bwd)(c1)
  {
    PairRowIsAB(P, cur, next, c1, Reach(sp, c1));
    var v := At(cur.fwd, c1) * At(cur.bwd, c1);
    assert ABTerm(cur.fwd, cur.bwd)(c1) == v;
    assert PairRowSum(P, sp, cur, next)(c1) == Sum(Reach(sp, c1), PairRow(P, cur, next, c1));
    SumExt(Reach(sp, c1), Row(PairTerms(P, cur, next), c1), PairRow(P, cur, next, c1));
  }

  /** calcJointProb's denominator is Σ α_t·β_t. */
  lemma DenominatorIsEvidence(P: Params, sp: Space, cur: MoveVal, next: MoveVal)
    requires cur.bwd == BackwardNext(P, sp, next.bwd, next.reward)
    ensures JointDenominator(P, sp, cur, next) == Evidence(sp, cur)
  {
    forall c1 | c1 in All(sp) ensures PairRowSum(P, sp, cur, next)(c1) == ABTerm(cur.fwd, cur.bwd)(c1) {
      PositionsMembers(sp.rows, sp.cols, c1);
      BackwardNextAt(P, sp, next.bwd, next.reward, c1);
      RowIsAB(P, sp, cur, next, c1);
    }
    SumExt(All(sp), PairRowSum(P, sp, cur, next), ABTerm(cur.fwd, cur.bwd));
  }

  /** The pairs (s, q) with q in Reach(s) form a symmetric relation on the
      grid, each row listed once. */
  lemma ReachRelation(sp: Space)
    ensures Distinct(All(sp))
    ensures forall s :: s in All(sp) ==> Distinct(ReachOf(sp)(s)) && forall q :: q in ReachOf(sp)(s) ==> q in All(sp)
    ensures forall s, q :: s in All(sp) && q in All(sp) ==> (q in ReachOf(sp)(s) <==> s in ReachOf(sp)(q))
  {
    PositionsDistinct(sp.rows, sp.cols);
    forall s | s in All(sp) ensures Distinct(ReachOf(sp)(s)) && forall q :: q in ReachOf(sp)(s) ==> q in All(sp) {
      ReachDistinct(sp, s);
      forall q | q in ReachOf(sp)(s) ensures q in All(sp) {
        ReachInGrid(sp, s, q);
        PositionsMembers(sp.rows, sp.cols, q);
      }
    }
    forall s, q | s in All(sp) && q in All(sp) ensures q in ReachOf(sp)(s) <==> s in ReachOf(sp)(q) {
      PositionsMembers(sp.rows, sp.cols, s);
      PositionsMembers(sp.rows, sp.cols, q);
      ReachSymmetric(sp, s, q);
    }
  }

  /** Σ α·β is the same at two linked moves: both are the sum of all pair
      terms, taken by rows or by columns. */
  lemma EvidenceStep(P: Params, sp: Space, cur: MoveVal, next: MoveVal)
    requires Linked(P, sp, cur, next)
    ensures Evidence(sp, cur) == Evidence(sp, next)
  {
    var F, R := PairTerms(P, cur, next), ReachOf(sp);
    forall c1 | c1 in All(sp) ensures RowsWithin(F, R)(c1) == ABTerm(cur.fwd, cur.bwd)(c1) {
      PositionsMembers(sp.rows, sp.cols, c1);
      BackwardNextAt(P, sp, next.bwd, next.reward, c1);
      RowIsAB(P, sp, cur, next, c1);
    }
    forall c2 | c2 in All(sp) ensures ColsWithin(F, R)(c2) == ABTerm(next.fwd, next.bwd)(c2) {
      PositionsMembers(sp.rows, sp.cols, c2);
      ForwardNextAt(P, sp, cur.fwd, next.reward, c2);
      ColIsAB(P, sp, cur, next, c2);
    }
    ReachRelation(sp);
    SumSwapWithin(All(sp), R, F);
    SumExt(All(sp), RowsWithin(F, R), ABTerm(cur.fwd, cur.bwd));
    SumExt(All(sp), ColsWithin(F, R), ABTerm(next.fwd, next.bwd));
  }

  /** At the last move β = 1, so Σ α·β is Σ α. */
  lemma EvidenceLast(sp: Space, m: MoveVal)
    requires m.bwd == BackwardLast(sp)
    ensures Evidence(sp, m) == Sum(All(sp), Lookup(m.fwd))
  {
    forall c | c in All(sp) ensures ABTerm(m.fwd, m.bwd)(c) == Lookup(m.fwd)(c) {
      PositionsMembers(sp.rows, sp.cols, c);
      PosSetMembers(sp.rows, sp.cols, c);
    }
    SumExt(All(sp), ABTerm(m.fwd, m.bwd), Lookup(m.fwd));
  }

  /** A map keyed by exactly the grid's cells has the grid as its key set. */
  lemma GridKeys(sp: Space, m: map<Pos, real>)
    requires Covers(sp.rows, sp.cols, m) && Within(sp.rows, sp.cols, m)
    ensures m.Keys == (set p | p in All(sp))
  {
    forall p ensures p in m <==> p in All(sp) {
      PositionsMembers(sp.rows, sp.cols, p);
    }
  }

  /** The sums calcMarginalProb takes over the forward cache's key set are
      sums over the grid; its denominator is Σ α·β. */
  lemma MarginalDenominator(sp: Space, m: MoveVal)
    requires Covers(sp.rows, sp.cols, m.fwd) && Within(sp.rows, sp.cols, m.fwd)
    ensures SetSum(m.fwd.Keys, ABTerm(m.fwd, m.bwd)) == Evidence(sp, m)
    ensures SetSum(m.fwd.Keys, MarginalTerm(m.fwd, m.bwd)) == Sum(All(sp), MarginalTerm(m.fwd, m.bwd))
  {
    GridKeys(sp, m.fwd);
    PositionsDistinct(sp.rows, sp.cols);
    SetSumOfSeq(All(sp), ABTerm(m.fwd, m.bwd));
    SetSumOfSeq(All(sp), MarginalTerm(m.fwd, m.bwd));
  }

  /** Σ α·β at any move t of a consistent episode is the episode's factor
      of the likelihood. */
  lemma {:induction false} EvidenceAt(P: Params, sp: Space, ev: seq<MoveVal>, t: nat)
    requires Consistent(P, sp, ev) && t < |ev|
    ensures Evidence(sp, ev[t]) == LastForwardSum(sp, ev)
    decreases |ev| - t
  {
    if t == |ev| - 1 {
      EvidenceLast(sp, ev[t]);
    } else {
      EvidenceStep(P, sp, ev[t], ev[t + 1]);
      EvidenceAt(P, sp, ev, t + 1);
    }
  }

  /** For the caches calcForwardBack leaves: at every move of every episode,
      Σ α·β is the episode's likelihood factor, and so is the denominator
      of the joint posterior of that move and the next. */
  lemma CachesEvidence(P: Params, sp: Space, data: seq<seq<int>>, a: nat, t: nat)
    requires a < |data| && t < |data[a]|
    ensures Evidence(sp, Caches(P, sp, data)[a][t]) == LastForwardSum(sp, Caches(P, sp, data)[a])
    ensures t + 1 < |data[a]| ==>
      JointDenominator(P, sp, Caches(P, sp, data)[a][t], Caches(P, sp, data)[a][t + 1]) ==
      LastForwardSum(sp, Caches(P, sp, data)[a])
  {
    var ev := Caches(P, sp, data)[a];
    EpisodeCachesConsistent(P, sp, data[a]);
    EvidenceAt(P, sp, ev, t);
    if t + 1 < |ev| {
      DenominatorIsEvidence(P, sp, ev[t], ev[t + 1]);
    }
  }
}

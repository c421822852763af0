/**
 * One observation of an episode (src/mlap_prog/Move.java): the cell the
 * agent was in (absent when the cell is hidden), the reward it saw, and the
 * forward and backward values the EM algorithm caches per cell.
 */
module Moves {
  import opened Sums
  import opened Cells

  /** A cell reference that may be null: a hidden move has no cell. */
  datatype Option<T> = None | Some(value: T)

  /** The term α(c)·β(c) that the marginal's denominator sums. */
  function ABTerm(fwd: map<Pos, real>, bwd: map<Pos, real>): Pos -> real
  {
    c => At(fwd, c) * At(bwd, c)
  }

  /** The posterior P(H = c) at one move: α(c)·β(c) over the sum of α·β over
      every cell that has a forward value. */
  ghost function MarginalOf(fwd: map<Pos, real>, bwd: map<Pos, real>, c: Pos): real
  {
    Div(At(fwd, c) * At(bwd, c), SetSum(fwd.Keys, ABTerm(fwd, bwd)))
  }

  ghost function MarginalTerm(fwd: map<Pos, real>, bwd: map<Pos, real>): Pos -> real
  {
    c => MarginalOf(fwd, bwd, c)
  }

  /** The posteriors over the cached cells add up to one whenever their
      common denominator is not zero. */
  lemma MarginalsSumToOne(fwd: map<Pos, real>, bwd: map<Pos, real>)
    requires SetSum(fwd.Keys, ABTerm(fwd, bwd)) != 0.0
    ensures SetSum(fwd.Keys, MarginalTerm(fwd, bwd)) == 1.0
  {
    SetSumNormalised(fwd.Keys, ABTerm(fwd, bwd), MarginalTerm(fwd, bwd));
  }

  class Move {
    const cell: Option<Pos>
    const reward: int
    var forwardProb: map<Pos, real>
    var backwardProb: map<Pos, real>

    /** The cell and reward are fixed here for the life of the move. */
    constructor (cell: Option<Pos>, reward: int)
      ensures GetCell() == cell && GetReward() == reward
      ensures forwardProb == map[] && backwardProb == map[]
    {
      this.cell := cell;
      this.reward := reward;
      forwardProb := map[];
      backwardProb := map[];
    }

    function GetCell(): Option<Pos>
    {
      cell
    }

    function GetReward(): int
    {
      reward
    }

    /** Stores α for one cell; reading it back yields val, every other cell's
        forward value and the backward cache are untouched. */
    method SetForwardProb(c: Pos, val: real)
      modifies this`forwardProb
      ensures forwardProb == old(forwardProb)[c := val]
    {
      forwardProb := forwardProb[c := val];
    }

    /** The source unboxes a HashMap lookup, which fails on a missing key. */
    function GetForwardProb(c: Pos): real
      reads this
      requires c in forwardProb
    {
      forwardProb[c]
    }

    method SetBackwardProb(c: Pos, val: real)
      modifies this`backwardProb
      ensures backwardProb == old(backwardProb)[c := val]
    {
      backwardProb := backwardProb[c := val];
    }

    function GetBackwardProb(c: Pos): real
      reads this
      requires c in backwardProb
    {
      backwardProb[c]
    }

    /** getMarginalCellProb: the numerator α(c)·β(c) and the denominator
        accumulated over the forward cache's key set. */
    method GetMarginalCellProb(c: Pos) returns (r: real)
      requires c in forwardProb && c in backwardProb
      requires forwardProb.Keys <= backwardProb.Keys
      ensures r == MarginalOf(forwardProb, backwardProb, c)
    {
      var numerator := forwardProb[c] * backwardProb[c];
      var denominator := 0.0;
      var keys := forwardProb.Keys;
      while keys != {}
        invariant keys <= forwardProb.Keys
        invariant denominator + SetSum(keys, ABTerm(forwardProb, backwardProb)) ==
                  SetSum(forwardProb.Keys, ABTerm(forwardProb, backwardProb))
        decreases keys
      {
        var k :| k in keys;
        SetSumRemove(keys, k, ABTerm(forwardProb, backwardProb));
        denominator := denominator + forwardProb[k] * backwardProb[k];
        keys := keys - {k};
      }
      r := Div(numerator, denominator);
    }
  }
}

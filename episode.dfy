/**
 * An episode (src/mlap_prog/Episode.java): the moves of one run through the
 * grid, appended in order.
 */
module Episodes {
  import opened Cells
  import opened Moves

  class Episode {
    var moves: seq<Move>

    constructor ()
      ensures GetLength() == 0
    {
      moves := [];
    }

    /** Appends a new move with the given cell and reward; the moves already
        present stay where they are. */
    method AddMove(cell: Option<Pos>, reward: int)
      modifies this`moves
      ensures |moves| == |old(moves)| + 1
      ensures moves[..|old(moves)|] == old(moves)
      ensures fresh(moves[|moves| - 1])
      ensures moves[|moves| - 1].GetCell() == cell && moves[|moves| - 1].GetReward() == reward
      ensures moves[|moves| - 1].forwardProb == map[] && moves[|moves| - 1].backwardProb == map[]
    {
      var m := new Move(cell, reward);
      moves := moves + [m];
    }

    /** The list itself, as the source hands it out. */
    function GetMoves(): seq<Move>
      reads this
    {
      moves
    }

    function GetLength(): (n: nat)
      reads this
      ensures n == |GetMoves()|
    {
      |moves|
    }
  }

  /** ArrayList.indexOf on a list of moves: the first position holding the
      object m (compared by identity), or -1 when there is none. */
  function IndexOf(ms: seq<Move>, m: Move): (r: int)
    ensures -1 <= r < |ms|
    ensures r == -1 <==> m !in ms
    ensures r >= 0 ==> ms[r] == m && forall u :: 0 <= u < r ==> ms[u] != m
  {
    if ms == [] then -1
    else if ms[0] == m then 0
    else
      var k := IndexOf(ms[1..], m);
      if k < 0 then -1 else k + 1
  }

  /** In a list of distinct moves, the position of the move at t is t. */
  lemma IndexOfDistinct(ms: seq<Move>, t: nat)
    requires t < |ms|
    requires forall u, v :: 0 <= u < v < |ms| ==> ms[u] != ms[v]
    ensures IndexOf(ms, ms[t]) == t
  {
  }
}

/**
 * Building a grid (the Grid constructor and getEpisodesFromFile in
 * src/mlap_prog/Grid.java): one new cell per coordinate, and the episodes
 * of the data file as new Episode and Move objects.
 */
module Loading {
  import opened Cells
  import opened Adjacency
  import opened Moves
  import opened Episodes
  import opened Parsing

  /** What a move says, as a line of the data file says it. */
  function EntryOf(m: Move): Entry
  {
    match m.cell
    case Some(p) => Visible(p.x, p.y, m.reward)
    case None => Hidden(m.reward)
  }

  function EntriesOf(ms: seq<Move>): (r: seq<Entry>)
    ensures |r| == |ms| && forall i :: 0 <= i < |ms| ==> r[i] == EntryOf(ms[i])
  {
    seq(|ms|, i requires 0 <= i < |ms| => EntryOf(ms[i]))
  }

  /** What every episode of the list says. */
  ghost function EpisodeEntries(eps: seq<Episode>): (r: seq<seq<Entry>>)
    reads set e | e in eps
    ensures |r| == |eps| && forall a :: 0 <= a < |eps| ==> r[a] == EntriesOf(eps[a].moves)
  {
    seq(|eps|, a requires 0 <= a < |eps| reads set e | e in eps => EntriesOf(eps[a].moves))
  }

  /** Every visible line read before the first malformed one names a cell
      of a rows × cols grid: `cells[x][y]` is out of bounds otherwise. */
  predicate CellsInRange(lines: seq<string>, rows: int, cols: int)
  {
    forall k ::
      (0 <= k < |lines| && !MalformedBefore(lines, k) && Classify(lines[k]).Item? && Classify(lines[k]).entry.Visible?) ==>
        Classify(lines[k]).entry.x < rows && Classify(lines[k]).entry.y < cols
  }

  /** No move object appears twice in the list. */
  ghost predicate DistinctMoves(eps: seq<Episode>)
    reads set e | e in eps
  {
    forall a, b, i, j ::
      (0 <= a < |eps| && 0 <= b < |eps| && 0 <= i < |eps[a].moves| && 0 <= j < |eps[b].moves| &&
       eps[a].moves[i] == eps[b].moves[j]) ==> a == b && i == j
  }

  /** Every move's caches are empty, its visible cell lies in the grid and
      its reward is one the file format allows. */
  ghost predicate NewMoves(eps: seq<Episode>, rows: int, cols: int)
    reads set e | e in eps, set a, i | 0 <= a < |eps| && 0 <= i < |eps[a].moves| :: eps[a].moves[i]
  {
    forall a, i :: 0 <= a < |eps| && 0 <= i < |eps[a].moves| ==>
      eps[a].moves[i].forwardProb == map[] && eps[a].moves[i].backwardProb == map[] &&
      eps[a].moves[i].reward in {-1, 0, 1} &&
      (eps[a].moves[i].cell.Some? ==> InGrid(rows, cols, eps[a].moves[i].cell.value))
  }

  /** The read stands before line k: no earlier line was malformed. */
  lemma ReadingSoFar(lines: seq<string>, k: nat)
    requires k <= |lines| && ScanOf(lines[..k]).Reading?
    ensures !MalformedBefore(lines, k)
  {
    ScanFailsIffMalformed(lines[..k]);
    assert forall j :: 0 <= j < k ==> lines[..k][j] == lines[j];
  }

  /** Once the read fails, it stays failed. */
  lemma {:induction false} FailedStays(lines: seq<string>)
    ensures ScanOn(Failed, lines) == Failed
    decreases |lines|
  {
    if lines != [] {
      FailedStays(lines[..|lines| - 1]);
    }
  }

  /** A read that fails at line k fails for the whole file. */
  lemma FailsAt(lines: seq<string>, k: nat)
    requires k < |lines| && ScanOf(lines[..k + 1]) == Failed
    ensures Group(lines) == None
  {
    assert lines == lines[..k + 1] + lines[k + 1..];
    ScanOnAppend(Reading([], []), lines[..k + 1], lines[k + 1..]);
    FailedStays(lines[k + 1..]);
  }

  /** The constructor's loops over i and j: a new cell for every
      coordinate of the grid. */
  method NewCells(rows: nat, columns: nat) returns (cells: map<Pos, Cell>)
    ensures forall p :: p in cells <==> InGrid(rows, columns, p)
    ensures forall p :: p in cells ==> fresh(cells[p]) && cells[p].x == p.x && cells[p].y == p.y && cells[p].Pristine()
  {
    cells := map[];
    var i := 0;
    while i < rows
      invariant 0 <= i <= rows
      invariant forall p :: p in cells <==> InGrid(rows, columns, p) && Before(p, i, 0)
      invariant forall p :: p in cells ==> fresh(cells[p]) && cells[p].x == p.x && cells[p].y == p.y && cells[p].Pristine()
    {
      var j := 0;
      while j < columns
        invariant 0 <= j <= columns
        invariant forall p :: p in cells <==> InGrid(rows, columns, p) && Before(p, i, j)
        invariant forall p :: p in cells ==> fresh(cells[p]) && cells[p].x == p.x && cells[p].y == p.y && cells[p].Pristine()
      {
        var c := new Cell(i, j);
        cells := cells[Pos(i, j) := c];
        j := j + 1;
      }
      i := i + 1;
    }
  }

  /** A move line of the file: its entry becomes a new move at the end of
      the episode being read, and nothing else changes. */
  method AddEntry(episodes: seq<Episode>, ep: Episode, e: Entry, rows: nat, columns: nat)
    requires forall a :: 0 <= a < |episodes| ==> episodes[a] != ep
    requires DistinctMoves(episodes + [ep]) && NewMoves(episodes + [ep], rows, columns)
    requires Expressible(e) && (e.Visible? ==> e.x < rows && e.y < columns)
    modifies ep`moves
    ensures DistinctMoves(episodes + [ep]) && NewMoves(episodes + [ep], rows, columns)
    ensures EpisodeEntries(episodes) == old(EpisodeEntries(episodes))
    ensures EntriesOf(ep.moves) == old(EntriesOf(ep.moves)) + [e]
  {
    var cell := if e.Visible? then Some(Pos(e.x, e.y)) else None;
    ep.AddMove(cell, e.reward);
    var eps := episodes + [ep];
    forall a | 0 <= a < |episodes| ensures episodes[a].moves == old(episodes[a].moves) {
      assert episodes[a] != ep;
    }
    assert EntryOf(ep.moves[|ep.moves| - 1]) == e;
    assert EntriesOf(ep.moves) == old(EntriesOf(ep.moves)) + [e];
    forall a, i | 0 <= a < |eps| && 0 <= i < |eps[a].moves| && (a, i) != (|episodes|, |ep.moves| - 1)
      ensures eps[a].moves[i] == old(eps[a].moves[i]) && eps[a].moves[i] != ep.moves[|ep.moves| - 1]
    {
    }
  }

  /** An empty line after a move: the episode joins the list and a new,
      empty one is begun. */
  lemma CloseEpisode(episodes: seq<Episode>, ep: Episode, next: Episode, rows: int, columns: int)
    requires DistinctMoves(episodes + [ep]) && NewMoves(episodes + [ep], rows, columns)
    requires next.moves == []
    ensures DistinctMoves(episodes + [ep] + [next]) && NewMoves(episodes + [ep] + [next], rows, columns)
    ensures EpisodeEntries(episodes + [ep]) == EpisodeEntries(episodes) + [EntriesOf(ep.moves)]
  {
    var eps, eps' := episodes + [ep], episodes + [ep] + [next];
    assert forall a :: 0 <= a < |eps| ==> eps'[a] == eps[a];
  }

  ghost function MovesOf(eps: seq<Episode>): set<Move>
    reads set e | e in eps
  {
    set a, i | 0 <= a < |eps| && 0 <= i < |eps[a].moves| :: eps[a].moves[i]
  }

  /** The loop's state stands for the first k lines: the episodes closed
      and the one being read say what Scan says of those lines, they share
      no move, and the closed ones are nonempty. */
  ghost predicate ReadUpTo(lines: seq<string>, k: nat, episodes: seq<Episode>, ep: Episode, rows: nat, columns: nat)
    reads (set e | e in episodes + [ep]), MovesOf(episodes + [ep])
  {
    k <= |lines| &&
    (forall a :: 0 <= a < |episodes| ==> episodes[a] != ep && |episodes[a].moves| > 0) &&
    DistinctMoves(episodes + [ep]) && NewMoves(episodes + [ep], rows, columns) &&
    ScanOf(lines[..k]) == Reading(EpisodeEntries(episodes), EntriesOf(ep.moves))
  }

  /** The loop body for line k: the state moves on to k + 1 lines, or
      the line is malformed and the whole read fails. */
  method ReadLine(lines: seq<string>, k: nat, episodes: seq<Episode>, ep: Episode, rows: nat, columns: nat)
    returns (episodes': seq<Episode>, ep': Episode, failed: bool)
    requires CellsInRange(lines, rows, columns) && k < |lines|
    requires ReadUpTo(lines, k, episodes, ep, rows, columns)
    modifies ep`moves
    ensures failed ==> Group(lines) == None
    ensures !failed ==> ReadUpTo(lines, k + 1, episodes', ep', rows, columns)
    ensures ep' == ep || fresh(ep')
  {
    var line := lines[k];
    ScanOnStep(Reading([], []), lines, k);
    ReadingSoFar(lines, k);
    var kind := Classify(line);
    episodes', ep', failed := episodes, ep, false;
    if kind.Blank? {
      if ep.GetLength() > 0 {
        var next := new Episode();
        CloseEpisode(episodes, ep, next, rows, columns);
        episodes', ep' := episodes + [ep], next;
      }
    } else if kind.Item? {
      AddEntry(episodes, ep, kind.entry, rows, columns);
    } else {
      FailsAt(lines, k);
      failed := true;
    }
  }

  /** getEpisodesFromFile: reads the lines in order, adding each move line
      to the current episode and closing the episode at an empty line when
      it has a move.  The episodes are the ones Group gives, as objects that
      share no move; a malformed line ends the read (the source throws
      IOException) with ok false. */
  method GetEpisodesFromFile(rows: nat, columns: nat, lines: seq<string>) returns (episodes: seq<Episode>, ok: bool)
    requires CellsInRange(lines, rows, columns)
    ensures ok <==> Group(lines).Some?
    ensures ok ==> EpisodeEntries(episodes) == Group(lines).value
    ensures !ok ==> episodes == []
    ensures forall a :: 0 <= a < |episodes| ==> |episodes[a].moves| > 0
    ensures DistinctMoves(episodes) && NewMoves(episodes, rows, columns)
  {
    episodes := [];
    var ep := new Episode();
    var k := 0;
    while k < |lines|
      invariant fresh(ep) && ReadUpTo(lines, k, episodes, ep, rows, columns)
    {
      var failed;
      episodes, ep, failed := ReadLine(lines, k, episodes, ep, rows, columns);
      if failed {
        return [], false;
      }
      k := k + 1;
    }
    assert lines[..k] == lines;
    assert forall a :: 0 <= a < |episodes| ==> (episodes + [ep])[a] == episodes[a];
    ok := true;
  }
}

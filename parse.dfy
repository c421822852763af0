/**
 * The episode file read by getEpisodesFromFile (src/mlap_prog/Grid.java):
 * one move per line, "(x,y) r" for a visible move and "r" alone for a
 * hidden one, with an empty line after each episode.  The file is given as
 * the lines BufferedReader.readLine hands out, without their terminators.
 */
module Parsing {
  import opened Moves

  /** What one move line holds: the cell and reward, or the reward alone. */
  datatype Entry = Visible(x: int, y: int, reward: int) | Hidden(reward: int)

  datatype Line = Blank | Item(entry: Entry) | Malformed

  /** The characters a `.` of a Java regular expression does not match. */
  predicate LineTerminator(c: char)
  {
    c == '\n' || c == '\r' || c == '\U{85}' || c == '\U{2028}' || c == '\U{2029}'
  }

  /** The character class [0-3]. */
  predicate IsCoordinate(c: char)
  {
    '0' <= c <= '3'
  }

  function DigitValue(c: char): int
  {
    c as int - '0' as int
  }

  /** Integer.parseInt of a string that matches -?[01] in full, or None
      when it does not match. */
  function RewardValue(s: string): (r: Option<int>)
    ensures r.Some? ==> r.value in {-1, 0, 1}
    ensures r.Some? <==> s in {"0", "1", "-0", "-1"}
  {
    if s == "0" || s == "-0" then Some(0)
    else if s == "1" then Some(1)
    else if s == "-1" then Some(-1)
    else None
  }

  /** Whether a line matches ".([0-3]),([0-3]). (-?[01])" in full. */
  predicate VisibleMatch(line: string)
  {
    |line| >= 7 && !LineTerminator(line[0]) && IsCoordinate(line[1]) && line[2] == ',' &&
    IsCoordinate(line[3]) && !LineTerminator(line[4]) && line[5] == ' ' && RewardValue(line[6..]).Some?
  }

  /** The loop body's three-way test on one line: an empty line ends an
      episode, a line matching the visible pattern gives its two
      coordinates and reward, one matching the hidden pattern gives the
      reward alone, and any other line is a format error. */
  function Classify(line: string): (l: Line)
    ensures l == Blank <==> line == []
    ensures l.Item? && l.entry.Visible? ==> 0 <= l.entry.x <= 3 && 0 <= l.entry.y <= 3
    ensures l.Item? ==> l.entry.reward in {-1, 0, 1}
    ensures l.Malformed? <==> line != [] && !VisibleMatch(line) && RewardValue(line).None?
  {
    if line == [] then Blank
    else if VisibleMatch(line) then
      Item(Visible(DigitValue(line[1]), DigitValue(line[3]), RewardValue(line[6..]).value))
    else if RewardValue(line).Some? then Item(Hidden(RewardValue(line).value))
    else Malformed
  }

  // -------------------------------------------------------------------
  // Writing entries back as lines: the format's other direction.

  /** An entry the format can express. */
  predicate Expressible(e: Entry)
  {
    e.reward in {-1, 0, 1} && (e.Visible? ==> 0 <= e.x <= 3 && 0 <= e.y <= 3)
  }

  function Digit(v: int): char
    requires 0 <= v <= 3
  {
    ('0' as int + v) as char
  }

  function RewardText(r: int): string
  {
    if r < 0 then "-1" else if r == 0 then "0" else "1"
  }

  /** The line holding one entry, as the data files write it. */
  function EntryLine(e: Entry): string
    requires Expressible(e)
  {
    match e
    case Visible(x, y, r) => ['(', Digit(x), ',', Digit(y), ')', ' '] + RewardText(r)
    case Hidden(r) => RewardText(r)
  }

  /** Reading back the line of an entry gives the entry. */
  lemma ClassifyEntryLine(e: Entry)
    requires Expressible(e)
    ensures Classify(EntryLine(e)) == Item(e)
  {
    var line := EntryLine(e);
    if e.Visible? {
      assert line[6..] == RewardText(e.reward);
      assert line[0] == '(' && line[4] == ')';
    }
  }

  // -------------------------------------------------------------------
  // Grouping lines into episodes.

  /** The loop's state: the episodes closed so far and the moves of the
      episode being read, or the format error that ends the read. */
  datatype Scan = Reading(done: seq<seq<Entry>>, current: seq<Entry>) | Failed

  /** One line more: an empty line closes the current episode when it has
      a move (further empty lines do nothing), a move line extends it, and
      a malformed line fails the whole read. */
  function Next(s: Scan, line: string): Scan
  {
    match s
    case Failed => Failed
    case Reading(done, current) =>
      match Classify(line)
      case Blank => if |current| > 0 then Reading(done + [current], []) else s
      case Item(e) => Reading(done, current + [e])
      case Malformed => Failed
  }

  /** The state after reading lines from state s. */
  function ScanOn(s: Scan, lines: seq<string>): Scan
    decreases |lines|
  {
    if lines == [] then s else Next(ScanOn(s, lines[..|lines| - 1]), lines[|lines| - 1])
  }

  function ScanOf(lines: seq<string>): Scan
  {
    ScanOn(Reading([], []), lines)
  }

  /** getEpisodesFromFile's result: the closed episodes, or None when a
      line is malformed (the IOException that leaves the grid's list null).
      Moves after the last empty line belong to no closed episode and are
      not kept. */
  function Group(lines: seq<string>): Option<seq<seq<Entry>>>
  {
    match ScanOf(lines)
    case Failed => None
    case Reading(done, _) => Some(done)
  }

  /** Reading in two parts is reading the whole. */
  lemma {:induction false} ScanOnAppend(s: Scan, xs: seq<string>, ys: seq<string>)
    ensures ScanOn(s, xs + ys) == ScanOn(ScanOn(s, xs), ys)
    decreases |ys|
  {
    if ys == [] {
      assert xs + ys == xs;
    } else {
      var n := |ys| - 1;
      assert (xs + ys)[..|xs + ys| - 1] == xs + ys[..n];
      ScanOnAppend(s, xs, ys[..n]);
    }
  }

  /** ScanOn one line further. */
  lemma ScanOnStep(s: Scan, lines: seq<string>, k: nat)
    requires k < |lines|
    ensures ScanOn(s, lines[..k + 1]) == Next(ScanOn(s, lines[..k]), lines[k])
  {
    assert lines[..k + 1][..k] == lines[..k];
  }

  /** Whether some line among the first k is malformed. */
  predicate MalformedBefore(lines: seq<string>, k: int)
  {
    exists j :: 0 <= j < k && j < |lines| && Classify(lines[j]).Malformed?
  }

  /** The read fails exactly when some line is malformed. */
  lemma {:induction false} ScanFailsIffMalformed(lines: seq<string>)
    ensures ScanOf(lines).Failed? <==> MalformedBefore(lines, |lines|)
    decreases |lines|
  {
    if lines != [] {
      var n := |lines| - 1;
      ScanFailsIffMalformed(lines[..n]);
      assert MalformedBefore(lines[..n], n) ==> MalformedBefore(lines, |lines|);
      if MalformedBefore(lines, |lines|) && !Classify(lines[n]).Malformed? {
        var j :| 0 <= j < |lines| && Classify(lines[j]).Malformed?;
        assert lines[..n][j] == lines[j];
      }
    }
  }

  lemma GroupFailsIffMalformed(lines: seq<string>)
    ensures Group(lines).None? <==> exists j :: 0 <= j < |lines| && Classify(lines[j]).Malformed?
  {
    ScanFailsIffMalformed(lines);
  }

  /** Every closed episode has a move, and every entry read is one the
      format can express. */
  ghost predicate WellRead(s: Scan)
  {
    s.Reading? &&
    (forall a :: 0 <= a < |s.done| ==> |s.done[a]| > 0) &&
    (forall a, i :: 0 <= a < |s.done| && 0 <= i < |s.done[a]| ==> Expressible(s.done[a][i])) &&
    (forall i :: 0 <= i < |s.current| ==> Expressible(s.current[i]))
  }

  lemma {:induction false} ScanWellRead(lines: seq<string>)
    requires ScanOf(lines).Reading?
    ensures WellRead(ScanOf(lines))
    decreases |lines|
  {
    if lines != [] {
      var n := |lines| - 1;
      ScanWellRead(lines[..n]);
    }
  }

  /** The episodes read are all nonempty, and their entries are ones the
      format can express: coordinates in 0..3 and rewards in {-1, 0, 1}. */
  lemma GroupWellFormed(lines: seq<string>)
    requires Group(lines).Some?
    ensures forall a :: 0 <= a < |Group(lines).value| ==> |Group(lines).value[a]| > 0
    ensures forall a, i :: 0 <= a < |Group(lines).value| && 0 <= i < |Group(lines).value[a]| ==>
              Expressible(Group(lines).value[a][i])
  {
    ScanWellRead(lines);
  }

  /** A move line never changes the closed episodes: only an empty line
      can, so the moves after the last empty line are dropped. */
  lemma MoveLineKeepsEpisodes(lines: seq<string>, line: string)
    requires Classify(line).Item? && Group(lines).Some?
    ensures Group(lines + [line]) == Group(lines)
  {
    assert (lines + [line])[..|lines|] == lines;
  }

  /** An empty line after an empty line adds nothing. */
  lemma BlankLinesCollapse(lines: seq<string>)
    requires Group(lines + [""]).Some?
    ensures Group(lines + ["", ""]) == Group(lines + [""])
  {
    assert (lines + ["", ""])[..|lines| + 1] == lines + [""];
    assert (lines + [""])[..|lines|] == lines;
  }

  /** The lines of an episode, followed by the empty line that closes it. */
  function EpisodeLines(e: seq<Entry>): (r: seq<string>)
    requires forall i :: 0 <= i < |e| ==> Expressible(e[i])
    ensures |r| == |e| + 1
  {
    seq(|e|, i requires 0 <= i < |e| && Expressible(e[i]) => EntryLine(e[i])) + [""]
  }

  /** The lines of a whole file of episodes. */
  function Render(eps: seq<seq<Entry>>): seq<string>
    requires forall a, i :: 0 <= a < |eps| && 0 <= i < |eps[a]| ==> Expressible(eps[a][i])
  {
    if eps == [] then [] else Render(eps[..|eps| - 1]) + EpisodeLines(eps[|eps| - 1])
  }

  /** Reading the move lines of an episode appends its entries. */
  lemma {:induction false} ScanEntries(done: seq<seq<Entry>>, cur: seq<Entry>, e: seq<Entry>)
    requires forall i :: 0 <= i < |e| ==> Expressible(e[i])
    ensures ScanOn(Reading(done, cur), EpisodeLines(e)[..|e|]) == Reading(done, cur + e)
    decreases |e|
  {
    var lines := EpisodeLines(e)[..|e|];
    if e == [] {
      assert cur + e == cur;
    } else {
      var n := |e| - 1;
      assert lines[..n] == EpisodeLines(e[..n])[..n];
      ScanEntries(done, cur, e[..n]);
      ClassifyEntryLine(e[n]);
      assert cur + e[..n] + [e[n]] == cur + e;
    }
  }

  /** Writing the episodes out and reading the lines back gives them
      again, when each episode has a move. */
  lemma {:induction false} GroupRender(eps: seq<seq<Entry>>)
    requires forall a, i :: 0 <= a < |eps| && 0 <= i < |eps[a]| ==> Expressible(eps[a][i])
    requires forall a :: 0 <= a < |eps| ==> |eps[a]| > 0
    ensures ScanOf(Render(eps)) == Reading(eps, [])
    ensures Group(Render(eps)) == Some(eps)
    decreases |eps|
  {
    if eps != [] {
      var n := |eps| - 1;
      var e := eps[n];
      GroupRender(eps[..n]);
      var lines := EpisodeLines(e);
      ScanOnAppend(Reading([], []), Render(eps[..n]), lines);
      ScanEntries(eps[..n], [], e);
      assert lines[..|lines| - 1] == lines[..|e|];
      assert [] + e == e;
      assert eps[..n] + [e] == eps;
    }
  }
}

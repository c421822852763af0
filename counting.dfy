/**
 * findVisibleParameters (src/mlap_prog/Grid.java): the estimator for
 * episodes whose every cell is visible.  For each episode it walks the
 * moves but the last, and at each one bumps the counters of the move's
 * cell (the initial counter at the first move only, the counter of the
 * next move's cell and the counter of the move's reward) and refreshes
 * that cell's probabilities (Cell.updateProbFromCount with the episode
 * count); then it does the same for the last move with the reward counter
 * alone.
 *
 * The model states this as a fold of one pass per move (`Run` over
 * `AllEvents`) and proves what the fold leaves: every counter is the old
 * one plus an independent count over the episodes, and every cell a move
 * visits holds its counters over their totals.
 */
module Counting {
  import opened Sums
  import opened Cells
  import opened Moves

  /** A move whose cell is visible: the cell and the reward seen there. */
  datatype Visit = Visit(at: Pos, reward: int)

  /** What a cell holds for the estimator: its counters and the
      probabilities updateProbFromCount derives from them. */
  datatype Tally = Tally(initialCount: nat, transitionCount: map<Pos, nat>, emissionCount: map<int, nat>,
                         initialProb: real, transitionProb: map<Pos, real>, emissionProb: map<int, real>)

  function TallyOf(c: Cell): Tally
    reads c
  {
    Tally(c.initialCount, c.transitionCount, c.emissionCount, c.initialProb, c.transitionProb, c.emissionProb)
  }

  /** A new cell's tally: nothing counted, nothing stored. */
  const Empty := Tally(0, map[], map[], 0.0, map[], map[])

  /** One pass of the loop body at the cell `at` of a move: whether the
      initial counter is bumped, the next move's cell (None for the last
      move, whose pass counts the reward alone) and the move's reward. */
  datatype Event = Event(at: Pos, first: bool, next: Option<Pos>, reward: int)

  /** The passes over one episode: a pass for each move but the last
      (the initial counter only at i == 0), then the pass for the last. */
  function Events(e: seq<Visit>): (r: seq<Event>)
    ensures |r| == |e|
    ensures forall i :: 0 <= i < |e| ==> r[i].at == e[i].at && r[i].reward == e[i].reward
    ensures forall i :: 0 <= i < |e| - 1 ==> r[i].first == (i == 0) && r[i].next == Some(e[i + 1].at)
    ensures |e| > 0 ==> !r[|e| - 1].first && r[|e| - 1].next == None
  {
    seq(|e|, i requires 0 <= i < |e| =>
      if i < |e| - 1 then Event(e[i].at, i == 0, Some(e[i + 1].at), e[i].reward)
      else Event(e[i].at, false, None, e[i].reward))
  }

  /** The passes over every episode, in order. */
  function AllEvents(data: seq<seq<Visit>>): seq<Event>
  {
    if data == [] then [] else AllEvents(data[..|data| - 1]) + Events(data[|data| - 1])
  }

  /** One more of k. */
  function Bump<K(!new)>(m: map<K, nat>, k: K): (r: map<K, nat>)
    ensures forall j :: CountOf(r, j) == CountOf(m, j) + if j == k then 1 else 0
    ensures m.Keys <= r.Keys
  {
    m[k := CountOf(m, k) + 1]
  }

  /** The counters of one pass: addInitialCount when it is the first,
      addTransitionCount for the next cell, addEmissionCount for the reward. */
  function Count(t: Tally, ev: Event): Tally
  {
    t.(initialCount := t.initialCount + (if ev.first then 1 else 0),
       transitionCount := if ev.next.Some? then Bump(t.transitionCount, ev.next.value) else t.transitionCount,
       emissionCount := Bump(t.emissionCount, ev.reward))
  }

  /** updateProbFromCount(n): each counted target and reward gets its count
      over the total of its kind, other stored probabilities stay, and the
      initial probability is the initial count over n. */
  ghost function Update(t: Tally, n: nat): Tally
  {
    t.(transitionProb := t.transitionProb + Normalised(t.transitionCount, CountTotal(t.transitionCount)),
       emissionProb := t.emissionProb + Normalised(t.emissionCount, CountTotal(t.emissionCount)),
       initialProb := Div(t.initialCount as real, n as real))
  }

  /** One whole pass. */
  ghost function Apply(t: Tally, ev: Event, n: nat): Tally
  {
    Update(Count(t, ev), n)
  }

  predicate AllAt(evs: seq<Event>, T: map<Pos, Tally>)
  {
    forall k :: 0 <= k < |evs| ==> evs[k].at in T
  }

  /** The tallies after the passes evs, from tallies T, with n episodes. */
  ghost function Run(T: map<Pos, Tally>, evs: seq<Event>, n: nat): (R: map<Pos, Tally>)
    requires AllAt(evs, T)
    ensures R.Keys == T.Keys
  {
    if evs == [] then T
    else
      var R := Run(T, evs[..|evs| - 1], n);
      var ev := evs[|evs| - 1];
      R[ev.at := Apply(R[ev.at], ev, n)]
  }

  lemma AllAtPrefix(evs: seq<Event>, T: map<Pos, Tally>)
    requires AllAt(evs, T) && evs != []
    ensures AllAt(evs[..|evs| - 1], T) && evs[|evs| - 1].at in T
  {
  }

  /** One pass more. */
  lemma RunSnoc(T: map<Pos, Tally>, evs: seq<Event>, ev: Event, evs': seq<Event>, n: nat, R: map<Pos, Tally>)
    requires AllAt(evs, T) && ev.at in T && evs' == evs + [ev] && R == Run(T, evs, n)
    ensures AllAt(evs', T) && ev.at in R
    ensures Run(T, evs', n) == R[ev.at := Apply(R[ev.at], ev, n)]
  {
    assert evs'[..|evs'| - 1] == evs;
  }

  /** R is what the passes evs leave, from tallies T. */
  ghost predicate Reached(T: map<Pos, Tally>, evs: seq<Event>, n: nat, R: map<Pos, Tally>)
  {
    AllAt(evs, T) && R == Run(T, evs, n)
  }

  /** The loop body's calls on the move's cell: addInitialCount at the
      first move, addTransitionCount for the next move's cell,
      addEmissionCount for the reward, then updateProbFromCount(n). */
  method CountInto(cell: Cell, ev: Event, n: nat)
    modifies cell`initialCount, cell`transitionCount, cell`emissionCount
    modifies cell`initialProb, cell`transitionProb, cell`emissionProb
    ensures TallyOf(cell) == Apply(old(TallyOf(cell)), ev, n)
  {
    ghost var t := TallyOf(cell);
    if ev.first {
      cell.AddInitialCount();
    }
    if ev.next.Some? {
      cell.AddTransitionCount(ev.next.value);
    }
    cell.AddEmissionCount(ev.reward);
    ghost var c := Count(t, ev);
    assert TallyOf(cell) == c;
    cell.UpdateProbFromCount(n);
    assert TallyOf(cell) == Update(c, n);
  }

  /** The passes over the first a + 1 episodes. */
  lemma AllEventsSnoc(data: seq<seq<Visit>>, a: nat)
    requires a < |data|
    ensures AllEvents(data[..a + 1]) == AllEvents(data[..a]) + Events(data[a])
  {
    assert data[..a + 1][..a] == data[..a];
  }

  /** The passes up to i + 1 are those up to i and the one at i. */
  lemma PrefixSnoc(before: seq<Event>, E: seq<Event>, i: nat)
    requires i < |E|
    ensures before + E[..i + 1] == before + E[..i] + [E[i]]
    ensures i == |E| - 1 ==> before + E == before + E[..i] + [E[i]] && before + E[..i + 1] == before + E
  {
    assert E[..i + 1] == E[..i] + [E[i]];
  }

  // -------------------------------------------------------------------
  // Counting the passes.

  /** How many of evs satisfy f. */
  function CountWhere(evs: seq<Event>, f: Criterion): nat
  {
    if evs == [] then 0 else CountWhere(evs[..|evs| - 1], f) + if Holds(f, evs[|evs| - 1]) then 1 else 0
  }

  /** What a pass is counted for: being at p, being the first pass at p,
      going from p to q, seeing reward r at p. */
  datatype Criterion = IsFirst | IsAt(p: Pos) | IsFirstAt(p: Pos) | IsPairAt(p: Pos, q: Pos) | IsRewardAt(p: Pos, r: int)

  predicate Holds(f: Criterion, ev: Event)
  {
    match f
    case IsFirst => ev.first
    case IsAt(p) => ev.at == p
    case IsFirstAt(p) => ev.at == p && ev.first
    case IsPairAt(p, q) => ev.at == p && ev.next == Some(q)
    case IsRewardAt(p, r) => ev.at == p && ev.reward == r
  }

  lemma {:induction false} CountWhereAppend(xs: seq<Event>, ys: seq<Event>, f: Criterion)
    ensures CountWhere(xs + ys, f) == CountWhere(xs, f) + CountWhere(ys, f)
    decreases |ys|
  {
    if ys == [] {
      assert xs + ys == xs;
    } else {
      var n := |ys| - 1;
      assert (xs + ys)[..|xs + ys| - 1] == xs + ys[..n];
      CountWhereAppend(xs, ys[..n], f);
    }
  }

  /** Two lists that agree on f element by element count alike. */
  lemma {:induction false} CountWhereExt(xs: seq<Event>, ys: seq<Event>, f: Criterion)
    requires |xs| == |ys| && forall k :: 0 <= k < |xs| ==> Holds(f, xs[k]) == Holds(f, ys[k])
    ensures CountWhere(xs, f) == CountWhere(ys, f)
    decreases |xs|
  {
    if xs != [] {
      var n := |xs| - 1;
      CountWhereExt(xs[..n], ys[..n], f);
    }
  }

  /** Counting what f accepts never counts more than what g accepts. */
  lemma {:induction false} CountWhereMono(xs: seq<Event>, f: Criterion, g: Criterion)
    requires forall k :: 0 <= k < |xs| && Holds(f, xs[k]) ==> Holds(g, xs[k])
    ensures CountWhere(xs, f) <= CountWhere(xs, g)
    decreases |xs|
  {
    if xs != [] {
      CountWhereMono(xs[..|xs| - 1], f, g);
    }
  }

  lemma {:induction false} CountWhereNone(xs: seq<Event>, f: Criterion)
    requires forall k :: 0 <= k < |xs| ==> !Holds(f, xs[k])
    ensures CountWhere(xs, f) == 0
    decreases |xs|
  {
    if xs != [] {
      CountWhereNone(xs[..|xs| - 1], f);
    }
  }

  lemma {:induction false} CountWhereWitness(xs: seq<Event>, f: Criterion) returns (k: nat)
    requires CountWhere(xs, f) > 0
    ensures k < |xs| && Holds(f, xs[k])
    decreases |xs|
  {
    if Holds(f, xs[|xs| - 1]) {
      k := |xs| - 1;
    } else {
      k := CountWhereWitness(xs[..|xs| - 1], f);
    }
  }

  /** Only the head is counted: a count of at most one. */
  lemma {:induction false} CountWhereHead(xs: seq<Event>, f: Criterion)
    requires forall k :: 1 <= k < |xs| ==> !Holds(f, xs[k])
    ensures CountWhere(xs, f) == if xs != [] && Holds(f, xs[0]) then 1 else 0
    decreases |xs|
  {
    if |xs| > 1 {
      CountWhereHead(xs[..|xs| - 1], f);
    } else if |xs| == 1 {
      assert xs[..0] == [];
    }
  }

  lemma CountWhereSome(xs: seq<Event>, f: Criterion, k: nat)
    requires k < |xs| && Holds(f, xs[k])
    ensures CountWhere(xs, f) > 0
  {
    assert xs == xs[..k] + xs[k..];
    CountWhereAppend(xs[..k], xs[k..], f);
    assert xs[k..] == [xs[k]] + xs[k + 1..];
    CountWhereAppend([xs[k]], xs[k + 1..], f);
    assert [xs[k]][..0] == [];
  }

  // -------------------------------------------------------------------
  // What the fold does to the counters.

  /** The counters after the passes: the old ones plus the passes that
      count each of them. */
  ghost predicate CountersAfter(R: Tally, t: Tally, evs: seq<Event>, p: Pos)
  {
    R.initialCount == t.initialCount + CountWhere(evs, IsFirstAt(p)) &&
    (forall q :: CountOf(R.transitionCount, q) == CountOf(t.transitionCount, q) + CountWhere(evs, IsPairAt(p, q))) &&
    (forall r :: CountOf(R.emissionCount, r) == CountOf(t.emissionCount, r) + CountWhere(evs, IsRewardAt(p, r))) &&
    t.transitionCount.Keys <= R.transitionCount.Keys && t.emissionCount.Keys <= R.emissionCount.Keys
  }

  /** One pass at p. */
  lemma ApplyCounters(t: Tally, ev: Event, n: nat, p: Pos)
    requires ev.at == p
    ensures var t' := Apply(t, ev, n);
      t'.initialCount == t.initialCount + (if Holds(IsFirstAt(p), ev) then 1 else 0) &&
      (forall q :: CountOf(t'.transitionCount, q) == CountOf(t.transitionCount, q) + if Holds(IsPairAt(p, q), ev) then 1 else 0) &&
      (forall r :: CountOf(t'.emissionCount, r) == CountOf(t.emissionCount, r) + if Holds(IsRewardAt(p, r), ev) then 1 else 0) &&
      t.transitionCount.Keys <= t'.transitionCount.Keys && t.emissionCount.Keys <= t'.emissionCount.Keys
  {
  }

  /** One pass more keeps CountersAfter: at p it counts what the pass
      counts, elsewhere it changes nothing at p. */
  lemma CountersStep(R: Tally, R': Tally, t: Tally, evs: seq<Event>, n: nat, p: Pos)
    requires evs != [] && CountersAfter(R, t, evs[..|evs| - 1], p)
    requires R' == if evs[|evs| - 1].at == p then Apply(R, evs[|evs| - 1], n) else R
    ensures CountersAfter(R', t, evs, p)
  {
    var ev := evs[|evs| - 1];
    if ev.at == p {
      ApplyCounters(R, ev, n, p);
    }
  }

  lemma {:induction false} RunCounters(T: map<Pos, Tally>, evs: seq<Event>, n: nat, p: Pos)
    requires AllAt(evs, T) && p in T
    ensures CountersAfter(Run(T, evs, n)[p], T[p], evs, p)
    decreases |evs|
  {
    if evs != [] {
      var init, ev := evs[..|evs| - 1], evs[|evs| - 1];
      AllAtPrefix(evs, T);
      RunCounters(T, init, n, p);
      var R := Run(T, init, n);
      assert evs == init + [ev];
      RunSnoc(T, init, ev, evs, n, R);
      CountersStep(R[p], Run(T, evs, n)[p], T[p], evs, n, p);
    }
  }

  // -------------------------------------------------------------------
  // What the fold does to the probabilities.

  /** Later normalisations overwrite earlier ones when the counted keys
      only grow. */
  lemma NormalisedOverwrite<K>(m: map<K, real>, a: map<K, nat>, ta: nat, b: map<K, nat>, tb: nat)
    requires a.Keys <= b.Keys
    ensures m + Normalised(a, ta) + Normalised(b, tb) == m + Normalised(b, tb)
  {
  }

  /** The probabilities a visited cell holds: its counters over their
      totals, on top of what it stored before the first pass at it. */
  ghost predicate ProbsAfter(R: Tally, t: Tally, n: nat)
  {
    R.transitionProb == t.transitionProb + Normalised(R.transitionCount, CountTotal(R.transitionCount)) &&
    R.emissionProb == t.emissionProb + Normalised(R.emissionCount, CountTotal(R.emissionCount)) &&
    R.initialProb == Div(R.initialCount as real, n as real)
  }

  /** A cell no pass visits keeps what it had; a visited one holds its
      final counters over their totals. */
  lemma {:induction false} RunProbs(T: map<Pos, Tally>, evs: seq<Event>, n: nat, p: Pos)
    requires AllAt(evs, T) && p in T
    ensures CountWhere(evs, IsAt(p)) == 0 ==> Run(T, evs, n)[p] == T[p]
    ensures CountWhere(evs, IsAt(p)) > 0 ==> ProbsAfter(Run(T, evs, n)[p], T[p], n)
    decreases |evs|
  {
    if evs != [] {
      var init, ev := evs[..|evs| - 1], evs[|evs| - 1];
      AllAtPrefix(evs, T);
      var R := Run(T, init, n);
      RunProbs(T, init, n, p);
      if ev.at == p {
        var c := Count(R[p], ev);
        assert R[p].transitionCount.Keys <= c.transitionCount.Keys;
        assert R[p].emissionCount.Keys <= c.emissionCount.Keys;
        if CountWhere(init, IsAt(p)) > 0 {
          NormalisedOverwrite(T[p].transitionProb, R[p].transitionCount, CountTotal(R[p].transitionCount),
                              c.transitionCount, CountTotal(c.transitionCount));
          NormalisedOverwrite(T[p].emissionProb, R[p].emissionCount, CountTotal(R[p].emissionCount),
                              c.emissionCount, CountTotal(c.emissionCount));
        }
      }
    }
  }

  // -------------------------------------------------------------------
  // Independent counts over the episodes.

  /** 1 when the episode starts at p and has a second move: the only case
      in which the loop body runs with i == 0 at p. */
  function Starts(e: seq<Visit>, p: Pos): nat
  {
    if |e| >= 2 && e[0].at == p then 1 else 0
  }

  /** How many consecutive moves of e go from p to q. */
  function PairsIn(e: seq<Visit>, p: Pos, q: Pos): nat
  {
    if |e| < 2 then 0
    else PairsIn(e[..|e| - 1], p, q) + if e[|e| - 2].at == p && e[|e| - 1].at == q then 1 else 0
  }

  /** How many moves of e see reward r at p. */
  function RewardsIn(e: seq<Visit>, p: Pos, r: int): nat
  {
    if e == [] then 0 else RewardsIn(e[..|e| - 1], p, r) + if e[|e| - 1] == Visit(p, r) then 1 else 0
  }

  /** How many moves of e are at p. */
  function VisitsIn(e: seq<Visit>, p: Pos): nat
  {
    if e == [] then 0 else VisitsIn(e[..|e| - 1], p) + if e[|e| - 1].at == p then 1 else 0
  }

  /** What is counted in an episode. */
  datatype Measure = StartsAt(p: Pos) | PairsAt(p: Pos, q: Pos) | RewardsAt(p: Pos, r: int) | VisitsAt(p: Pos)

  function Measured(f: Measure, e: seq<Visit>): nat
  {
    match f
    case StartsAt(p) => Starts(e, p)
    case PairsAt(p, q) => PairsIn(e, p, q)
    case RewardsAt(p, r) => RewardsIn(e, p, r)
    case VisitsAt(p) => VisitsIn(e, p)
  }

  /** f summed over the episodes. */
  function Over(data: seq<seq<Visit>>, f: Measure): nat
  {
    if data == [] then 0 else Over(data[..|data| - 1], f) + Measured(f, data[|data| - 1])
  }

  /** An episode's passes and its prefix's passes agree on everything but
      the pass at the prefix's last move. */
  lemma EventsPrefix(e: seq<Visit>, m: nat)
    requires m == |e| - 1 && m >= 1
    ensures Events(e)[..m - 1] == Events(e[..m])[..m - 1]
    ensures forall k :: 0 <= k < m ==> Events(e)[k].at == Events(e[..m])[k].at && Events(e)[k].reward == Events(e[..m])[k].reward
  {
  }

  lemma {:induction false} EventsStarts(e: seq<Visit>, p: Pos)
    ensures CountWhere(Events(e), IsFirstAt(p)) == Starts(e, p)
  {
    CountWhereHead(Events(e), IsFirstAt(p));
  }

  /** CountWhere with its last element taken apart. */
  lemma CountWhereLast(xs: seq<Event>, f: Criterion)
    requires xs != []
    ensures CountWhere(xs, f) == CountWhere(xs[..|xs| - 1], f) + if Holds(f, xs[|xs| - 1]) then 1 else 0
  {
  }

  /** The passes over e count one pair more than those over e's prefix
      exactly when the last two moves go from p to q. */
  lemma EventsPairsStep(e: seq<Visit>, m: nat, p: Pos, q: Pos)
    requires m == |e| - 1 && m >= 1
    ensures CountWhere(Events(e), IsPairAt(p, q)) ==
            CountWhere(Events(e[..m]), IsPairAt(p, q)) + if e[m - 1].at == p && e[m].at == q then 1 else 0
  {
    var f := IsPairAt(p, q);
    var E, E' := Events(e), Events(e[..m]);
    EventsPrefix(e, m);
    CountWhereLast(E, f);
    assert E[..m][..m - 1] == E[..m - 1];
    CountWhereLast(E[..m], f);
    CountWhereLast(E', f);
  }

  lemma {:induction false} EventsPairs(e: seq<Visit>, p: Pos, q: Pos)
    ensures CountWhere(Events(e), IsPairAt(p, q)) == PairsIn(e, p, q)
    decreases |e|
  {
    if |e| < 2 {
      CountWhereNone(Events(e), IsPairAt(p, q));
    } else {
      var m := |e| - 1;
      EventsPairs(e[..m], p, q);
      EventsPairsStep(e, m, p, q);
    }
  }

  lemma {:induction false} EventsRewards(e: seq<Visit>, p: Pos, r: int)
    ensures CountWhere(Events(e), IsRewardAt(p, r)) == RewardsIn(e, p, r)
    decreases |e|
  {
    var E := Events(e);
    if e != [] {
      var m := |e| - 1;
      EventsRewards(e[..m], p, r);
      assert E == E[..m] + [E[m]];
      CountWhereAppend(E[..m], [E[m]], IsRewardAt(p, r));
      assert [E[m]][..0] == [];
      CountWhereExt(E[..m], Events(e[..m]), IsRewardAt(p, r));
      assert E[m].at == e[m].at && E[m].reward == e[m].reward;
    }
  }

  lemma {:induction false} EventsVisits(e: seq<Visit>, p: Pos)
    ensures CountWhere(Events(e), IsAt(p)) == VisitsIn(e, p)
    decreases |e|
  {
    var E := Events(e);
    if e != [] {
      var m := |e| - 1;
      EventsVisits(e[..m], p);
      assert E == E[..m] + [E[m]];
      CountWhereAppend(E[..m], [E[m]], IsAt(p));
      assert [E[m]][..0] == [];
      CountWhereExt(E[..m], Events(e[..m]), IsAt(p));
    }
  }

  /** Every pass over the episodes is at the cell of some move. */
  lemma {:induction false} AllEventsAt(data: seq<seq<Visit>>, T: map<Pos, Tally>)
    requires forall a, i :: 0 <= a < |data| && 0 <= i < |data[a]| ==> data[a][i].at in T
    ensures AllAt(AllEvents(data), T)
    decreases |data|
  {
    if data != [] {
      var n := |data| - 1;
      AllEventsAt(data[..n], T);
      var xs, ys := AllEvents(data[..n]), Events(data[n]);
      assert forall k :: |xs| <= k < |xs + ys| ==> (xs + ys)[k] == ys[k - |xs|];
    }
  }

  /** Each count over the passes is the same count over the episodes. */
  lemma {:induction false} AllEventsStarts(data: seq<seq<Visit>>, p: Pos)
    ensures CountWhere(AllEvents(data), IsFirstAt(p)) == Over(data, StartsAt(p))
    decreases |data|
  {
    if data != [] {
      var n := |data| - 1;
      AllEventsStarts(data[..n], p);
      CountWhereAppend(AllEvents(data[..n]), Events(data[n]), IsFirstAt(p));
      EventsStarts(data[n], p);
    }
  }

  lemma {:induction false} AllEventsPairs(data: seq<seq<Visit>>, p: Pos, q: Pos)
    ensures CountWhere(AllEvents(data), IsPairAt(p, q)) == Over(data, PairsAt(p, q))
    decreases |data|
  {
    if data != [] {
      var n := |data| - 1;
      AllEventsPairs(data[..n], p, q);
      CountWhereAppend(AllEvents(data[..n]), Events(data[n]), IsPairAt(p, q));
      EventsPairs(data[n], p, q);
    }
  }

  lemma {:induction false} AllEventsRewards(data: seq<seq<Visit>>, p: Pos, r: int)
    ensures CountWhere(AllEvents(data), IsRewardAt(p, r)) == Over(data, RewardsAt(p, r))
    decreases |data|
  {
    if data != [] {
      var n := |data| - 1;
      AllEventsRewards(data[..n], p, r);
      CountWhereAppend(AllEvents(data[..n]), Events(data[n]), IsRewardAt(p, r));
      EventsRewards(data[n], p, r);
    }
  }

  lemma {:induction false} AllEventsVisits(data: seq<seq<Visit>>, p: Pos)
    ensures CountWhere(AllEvents(data), IsAt(p)) == Over(data, VisitsAt(p))
    decreases |data|
  {
    if data != [] {
      var n := |data| - 1;
      AllEventsVisits(data[..n], p);
      CountWhereAppend(AllEvents(data[..n]), Events(data[n]), IsAt(p));
      EventsVisits(data[n], p);
    }
  }

  // -------------------------------------------------------------------
  // What findVisibleParameters leaves.

  /** Every move's cell is one of T's. */
  predicate AllIn(data: seq<seq<Visit>>, T: map<Pos, Tally>)
  {
    forall a, i :: 0 <= a < |data| && 0 <= i < |data[a]| ==> data[a][i].at in T
  }

  /** The tallies findVisibleParameters leaves, from tallies T. */
  ghost function Estimate(T: map<Pos, Tally>, data: seq<seq<Visit>>): map<Pos, Tally>
    requires AllIn(data, T)
  {
    AllEventsAt(data, T);
    Run(T, AllEvents(data), |data|)
  }

  /** Each counter of cell p ends as the old one plus what the episodes
      show: the initial counter counts the episodes that start at p and
      have a second move, the transition counter for q the moves from p
      straight to q, the emission counter for r the moves at p with reward
      r.  No counter is lost. */
  lemma EstimateCounters(T: map<Pos, Tally>, data: seq<seq<Visit>>, p: Pos)
    requires AllIn(data, T) && p in T
    ensures var R := Estimate(T, data)[p];
      R.initialCount == T[p].initialCount + Over(data, StartsAt(p)) &&
      (forall q :: CountOf(R.transitionCount, q) == CountOf(T[p].transitionCount, q) + Over(data, PairsAt(p, q))) &&
      (forall r :: CountOf(R.emissionCount, r) == CountOf(T[p].emissionCount, r) + Over(data, RewardsAt(p, r)))
  {
    AllEventsAt(data, T);
    var evs := AllEvents(data);
    RunCounters(T, evs, |data|, p);
    forall q ensures CountWhere(evs, IsPairAt(p, q)) == Over(data, PairsAt(p, q)) {
      AllEventsPairs(data, p, q);
    }
    forall r ensures CountWhere(evs, IsRewardAt(p, r)) == Over(data, RewardsAt(p, r)) {
      AllEventsRewards(data, p, r);
    }
    AllEventsStarts(data, p);
  }

  /** A cell no move visits is left as it was; a visited one holds its
      counters over their totals (the initial counter over the number of
      episodes), on top of what it stored before. */
  lemma EstimateProbs(T: map<Pos, Tally>, data: seq<seq<Visit>>, p: Pos)
    requires AllIn(data, T) && p in T
    ensures Over(data, VisitsAt(p)) == 0 ==> Estimate(T, data)[p] == T[p]
    ensures Over(data, VisitsAt(p)) > 0 ==> ProbsAfter(Estimate(T, data)[p], T[p], |data|)
  {
    AllEventsAt(data, T);
    RunProbs(T, AllEvents(data), |data|, p);
    AllEventsVisits(data, p);
  }

  lemma CountTotalPositive<K>(m: map<K, nat>, k: K)
    requires CountOf(m, k) > 0
    ensures CountTotal(m) > 0
  {
    CountSumRemove(m, m.Keys, k);
  }

  /** The normalised part of a probability map sums to one over the
      counted keys. */
  lemma CountedSumToOne<K>(probs: map<K, real>, m: map<K, nat>)
    requires CountTotal(m) > 0
    ensures SetSum(m.Keys, Lookup(probs + Normalised(m, CountTotal(m)))) == 1.0
  {
    NormalisedIsDistribution(m);
    SetSumExt(m.Keys, Lookup(probs + Normalised(m, CountTotal(m))), Lookup(Normalised(m, CountTotal(m))));
  }

  /** A visited cell has counted some reward. */
  lemma VisitedCountsReward(T: map<Pos, Tally>, data: seq<seq<Visit>>, p: Pos)
    requires AllIn(data, T) && p in T && Over(data, VisitsAt(p)) > 0
    ensures CountTotal(Estimate(T, data)[p].emissionCount) > 0
  {
    AllEventsAt(data, T);
    var evs := AllEvents(data);
    AllEventsVisits(data, p);
    var k := CountWhereWitness(evs, IsAt(p));
    CountWhereSome(evs, IsRewardAt(p, evs[k].reward), k);
    RunCounters(T, evs, |data|, p);
    CountTotalPositive(Estimate(T, data)[p].emissionCount, evs[k].reward);
  }

  /** In every visited cell the emission probabilities of the rewards seen
      there sum to one, and so do the transition probabilities of the
      targets seen, once the cell has a next move. */
  lemma EstimateDistributions(T: map<Pos, Tally>, data: seq<seq<Visit>>, p: Pos)
    requires AllIn(data, T) && p in T && Over(data, VisitsAt(p)) > 0
    ensures var R := Estimate(T, data)[p];
      SetSum(R.emissionCount.Keys, Lookup(R.emissionProb)) == 1.0 &&
      (CountTotal(R.transitionCount) > 0 ==> SetSum(R.transitionCount.Keys, Lookup(R.transitionProb)) == 1.0)
  {
    var R := Estimate(T, data)[p];
    EstimateProbs(T, data, p);
    VisitedCountsReward(T, data, p);
    CountedSumToOne(T[p].emissionProb, R.emissionCount);
    if CountTotal(R.transitionCount) > 0 {
      CountedSumToOne(T[p].transitionProb, R.transitionCount);
    }
  }

  // -------------------------------------------------------------------
  // The initial probabilities.

  /** Nothing counted as initial and no initial probability stored, as in
      a new cell. */
  predicate Unstarted(t: Tally)
  {
    t.initialCount == 0 && t.initialProb == 0.0
  }

  /** The initial probability of each cell of R (0 for others). */
  function InitialOf(R: map<Pos, Tally>): Pos -> real
  {
    p => if p in R then R[p].initialProb else 0.0
  }

  /** How many first passes each cell has. */
  function FirstShare(evs: seq<Event>): Pos -> real
  {
    p => CountWhere(evs, IsFirstAt(p)) as real
  }

  /** After the passes, an unstarted cell's initial probability is its
      number of first passes over n, whether visited or not. */
  lemma RunInitial(T: map<Pos, Tally>, evs: seq<Event>, n: nat, p: Pos)
    requires AllAt(evs, T) && p in T && Unstarted(T[p])
    ensures Run(T, evs, n)[p].initialProb == Div(CountWhere(evs, IsFirstAt(p)) as real, n as real)
  {
    RunProbs(T, evs, n, p);
    RunCounters(T, evs, n, p);
    if CountWhere(evs, IsAt(p)) == 0 {
      CountWhereMono(evs, IsFirstAt(p), IsAt(p));
    }
  }

  /** Summed over distinct cells that hold every first pass, the first
      passes per cell are all the first passes. */
  lemma {:induction false} FirstsSum(xs: seq<Pos>, evs: seq<Event>)
    requires Distinct(xs)
    requires forall k :: 0 <= k < |evs| && evs[k].first ==> evs[k].at in xs
    ensures Sum(xs, FirstShare(evs)) == CountWhere(evs, IsFirst) as real
    decreases |evs|
  {
    if evs == [] {
      SumZero(xs, FirstShare(evs));
    } else {
      var init, ev := evs[..|evs| - 1], evs[|evs| - 1];
      FirstsSum(xs, init);
      var g := (p: Pos) => if Holds(IsFirstAt(p), ev) then 1.0 else 0.0;
      if ev.first {
        SumIndicator(xs, ev.at, g);
      } else {
        SumZero(xs, g);
      }
      SumAdd(xs, FirstShare(init), g, FirstShare(evs));
    }
  }

  /** With every cell unstarted and the cells xs holding all of T's, the
      initial probabilities after the passes sum to the number of first
      passes over n. */
  lemma RunInitialSum(T: map<Pos, Tally>, evs: seq<Event>, n: nat, xs: seq<Pos>)
    requires AllAt(evs, T) && n > 0 && Distinct(xs)
    requires forall p :: p in T ==> p in xs
    requires forall p :: p in xs ==> p in T && Unstarted(T[p])
    ensures Sum(xs, InitialOf(Run(T, evs, n))) == Div(CountWhere(evs, IsFirst) as real, n as real)
  {
    var R := Run(T, evs, n);
    forall p | p in xs ensures InitialOf(R)(p) == Div(FirstShare(evs)(p), n as real) {
      RunInitial(T, evs, n, p);
      assert p in R && InitialOf(R)(p) == R[p].initialProb;
      assert FirstShare(evs)(p) == CountWhere(evs, IsFirstAt(p)) as real;
    }
    SumDiv(xs, FirstShare(evs), InitialOf(R), n as real);
    FirstsSum(xs, evs);
  }

  /** How many episodes have a second move. */
  function Long(data: seq<seq<Visit>>): nat
  {
    if data == [] then 0 else Long(data[..|data| - 1]) + if |data[|data| - 1]| >= 2 then 1 else 0
  }

  lemma EventsFirsts(e: seq<Visit>)
    ensures CountWhere(Events(e), IsFirst) == if |e| >= 2 then 1 else 0
  {
    CountWhereHead(Events(e), IsFirst);
  }

  /** The first passes over the episodes are one per episode with a
      second move: a one-move episode has no pass with i == 0. */
  lemma {:induction false} AllEventsFirsts(data: seq<seq<Visit>>)
    ensures CountWhere(AllEvents(data), IsFirst) == Long(data)
    decreases |data|
  {
    if data != [] {
      var n := |data| - 1;
      AllEventsFirsts(data[..n]);
      CountWhereAppend(AllEvents(data[..n]), Events(data[n]), IsFirst);
      EventsFirsts(data[n]);
    }
  }

  /** findVisibleParameters from new cells: the initial probabilities over
      the grid's cells sum to the share of episodes that have a second
      move, which is less than one once an episode has a single move. */
  lemma EstimateInitialSum(T: map<Pos, Tally>, data: seq<seq<Visit>>, xs: seq<Pos>)
    requires AllIn(data, T) && |data| > 0 && Distinct(xs)
    requires forall p :: p in T ==> p in xs
    requires forall p :: p in xs ==> p in T && Unstarted(T[p])
    ensures Sum(xs, InitialOf(Estimate(T, data))) == Div(Long(data) as real, |data| as real)
  {
    AllEventsAt(data, T);
    RunInitialSum(T, AllEvents(data), |data|, xs);
    AllEventsFirsts(data);
  }

  /** Two episodes, the second of a single move. */
  const ShortExample := [[Visit(Pos(0, 0), 0), Visit(Pos(0, 1), 0)], [Visit(Pos(0, 0), 0)]]

  /** On ShortExample the initial probabilities sum to one half. */
  lemma InitialSumShortfall(T: map<Pos, Tally>, xs: seq<Pos>)
    requires Pos(0, 0) in T && Pos(0, 1) in T && Distinct(xs)
    requires forall p :: p in T ==> p in xs
    requires forall p :: p in xs ==> p in T && Unstarted(T[p])
    ensures Sum(xs, InitialOf(Estimate(T, ShortExample))) == 0.5
  {
    var data := ShortExample;
    assert data[..1][..0] == [];
    assert Long(data[..1]) == 1;
    EstimateInitialSum(T, data, xs);
  }

  // -------------------------------------------------------------------
  // The initial counter as evidently intended: bumped at every episode's
  // first move, including an episode of one move.

  /** As Events, with the last pass first when it is the only one. */
  function EventsFixed(e: seq<Visit>): (r: seq<Event>)
    ensures |r| == |e|
    ensures forall i :: 0 <= i < |e| ==> r[i].at == e[i].at && r[i].reward == e[i].reward && r[i].first == (i == 0)
    ensures forall i :: 0 <= i < |e| - 1 ==> r[i].next == Some(e[i + 1].at)
    ensures |e| > 0 ==> r[|e| - 1].next == None
  {
    seq(|e|, i requires 0 <= i < |e| =>
      if i < |e| - 1 then Event(e[i].at, i == 0, Some(e[i + 1].at), e[i].reward)
      else Event(e[i].at, i == 0, None, e[i].reward))
  }

  function AllEventsFixed(data: seq<seq<Visit>>): seq<Event>
  {
    if data == [] then [] else AllEventsFixed(data[..|data| - 1]) + EventsFixed(data[|data| - 1])
  }

  lemma {:induction false} AllEventsFixedAt(data: seq<seq<Visit>>, T: map<Pos, Tally>)
    requires AllIn(data, T)
    ensures AllAt(AllEventsFixed(data), T)
    decreases |data|
  {
    if data != [] {
      var n := |data| - 1;
      AllEventsFixedAt(data[..n], T);
      var xs, ys := AllEventsFixed(data[..n]), EventsFixed(data[n]);
      assert forall k :: |xs| <= k < |xs + ys| ==> (xs + ys)[k] == ys[k - |xs|];
    }
  }

  /** The corrected estimator's tallies. */
  ghost function EstimateFixed(T: map<Pos, Tally>, data: seq<seq<Visit>>): map<Pos, Tally>
    requires AllIn(data, T)
  {
    AllEventsFixedAt(data, T);
    Run(T, AllEventsFixed(data), |data|)
  }

  lemma EventsFixedFirsts(e: seq<Visit>)
    requires |e| > 0
    ensures CountWhere(EventsFixed(e), IsFirst) == 1
  {
    CountWhereHead(EventsFixed(e), IsFirst);
  }

  lemma {:induction false} AllEventsFixedFirsts(data: seq<seq<Visit>>)
    requires forall a :: 0 <= a < |data| ==> |data[a]| > 0
    ensures CountWhere(AllEventsFixed(data), IsFirst) == |data|
    decreases |data|
  {
    if data != [] {
      var n := |data| - 1;
      AllEventsFixedFirsts(data[..n]);
      CountWhereAppend(AllEventsFixed(data[..n]), EventsFixed(data[n]), IsFirst);
      EventsFixedFirsts(data[n]);
    }
  }

  /** With every episode nonempty, the corrected initial probabilities
      over the grid's cells sum to one. */
  lemma EstimateFixedInitialSum(T: map<Pos, Tally>, data: seq<seq<Visit>>, xs: seq<Pos>)
    requires AllIn(data, T) && |data| > 0 && Distinct(xs)
    requires forall a :: 0 <= a < |data| ==> |data[a]| > 0
    requires forall p :: p in T ==> p in xs
    requires forall p :: p in xs ==> p in T && Unstarted(T[p])
    ensures Sum(xs, InitialOf(EstimateFixed(T, data))) == 1.0
  {
    AllEventsFixedAt(data, T);
    RunInitialSum(T, AllEventsFixed(data), |data|, xs);
    AllEventsFixedFirsts(data);
    DivSelf(|data| as real);
  }
}

/**
 * A grid cell (src/mlap_prog/Cell.java): the frequency counters of the
 * fully-observed estimator, the active parameters (initial, transition and
 * emission probabilities) and the staging copy the EM sweep writes into.
 */
module Cells {
  import opened Sums

  /** A cell coordinate.  The source keys its maps by Cell object; the grid
      holds exactly one Cell per coordinate, so the coordinate identifies it. */
  datatype Pos = Pos(x: int, y: int)

  /** The count stored under k, or 0 when k was never counted. */
  function CountOf<K>(m: map<K, nat>, k: K): nat
  {
    if k in m then m[k] else 0
  }

  /** Every counter of m divided by total, as updateProbFromCount stores it. */
  function Normalised<K>(m: map<K, nat>, total: nat): (r: map<K, real>)
    ensures r.Keys == m.Keys
    ensures forall k :: k in r ==> r[k] == Div(m[k] as real, total as real)
  {
    map k | k in m :: Div(m[k] as real, total as real)
  }

  /** Normalised counts form a distribution over the counted keys as soon as
      anything was counted. */
  lemma NormalisedIsDistribution<K>(m: map<K, nat>)
    requires CountTotal(m) > 0
    ensures SetSum(m.Keys, Lookup(Normalised(m, CountTotal(m)))) == 1.0
  {
    var total := CountTotal(m);
    SetSumExt(m.Keys, Share(m, total), Lookup(Normalised(m, total)));
    SharesSumToOne(m);
  }

  /** The loop over a counter map's values that getTotal*Count runs. */
  method TotalOfCounts<K>(m: map<K, nat>) returns (total: nat)
    ensures total == CountTotal(m)
  {
    total := 0;
    var keys := m.Keys;
    while keys != {}
      invariant keys <= m.Keys
      invariant total + CountSum(m, keys) == CountTotal(m)
      decreases keys
    {
      var k :| k in keys;
      CountSumRemove(m, keys, k);
      total := total + m[k];
      keys := keys - {k};
    }
  }

  /** The loop of updateProbFromCount over a counter map's keys: each counted
      key gets its count over total, the other entries of probs are kept. */
  method PutNormalised<K>(probs: map<K, real>, counts: map<K, nat>, total: nat) returns (r: map<K, real>)
    ensures r == probs + Normalised(counts, total)
  {
    r := probs;
    var keys := counts.Keys;
    while keys != {}
      invariant keys <= counts.Keys
      invariant r == probs + Normalised(counts - keys, total)
      decreases keys
    {
      var k :| k in keys;
      r := r[k := Div(counts[k] as real, total as real)];
      keys := keys - {k};
    }
    assert counts - keys == counts;
  }

  class Cell {
    const x: int
    const y: int

    // Frequency counts of the fully-observed estimator.
    var initialCount: nat
    var transitionCount: map<Pos, nat>
    var emissionCount: map<int, nat>

    // The active parameters.
    var initialProb: real
    var transitionProb: map<Pos, real>
    var emissionProb: map<int, real>

    // The staging copy written during one EM sweep.
    var tempInitialProb: real
    var tempTransitionProb: map<Pos, real>
    var tempEmissionProb: map<int, real>

    constructor (x: int, y: int)
      ensures this.x == x && this.y == y
      ensures initialCount == 0 && transitionCount == map[] && emissionCount == map[]
      ensures initialProb == 0.0 && transitionProb == map[] && emissionProb == map[]
      ensures tempInitialProb == 0.0 && tempTransitionProb == map[] && tempEmissionProb == map[]
    {
      this.x := x;
      this.y := y;
      initialCount := 0;
      transitionCount := map[];
      emissionCount := map[];
      initialProb := 0.0;
      transitionProb := map[];
      emissionProb := map[];
      tempInitialProb := 0.0;
      tempTransitionProb := map[];
      tempEmissionProb := map[];
    }

    function Coordinates(): Pos
    {
      Pos(x, y)
    }

    method AddInitialCount()
      modifies this`initialCount
      ensures initialCount == old(initialCount) + 1
    {
      initialCount := initialCount + 1;
    }

    /** One more observed transition to `to`: its counter goes up by exactly
        one (from absent to 1), every other counter is untouched. */
    method AddTransitionCount(to: Pos)
      modifies this`transitionCount
      ensures transitionCount == old(transitionCount)[to := CountOf(old(transitionCount), to) + 1]
      ensures CountOf(transitionCount, to) == CountOf(old(transitionCount), to) + 1
      ensures forall c :: c != to ==> CountOf(transitionCount, c) == CountOf(old(transitionCount), c)
    {
      if to in transitionCount {
        var count := transitionCount[to] + 1;
        transitionCount := transitionCount[to := count];
      } else {
        transitionCount := transitionCount[to := 1];
      }
    }

    /** One more observed reward of the given type, likewise. */
    method AddEmissionCount(rewardType: int)
      modifies this`emissionCount
      ensures emissionCount == old(emissionCount)[rewardType := CountOf(old(emissionCount), rewardType) + 1]
      ensures CountOf(emissionCount, rewardType) == CountOf(old(emissionCount), rewardType) + 1
      ensures forall r :: r != rewardType ==> CountOf(emissionCount, r) == CountOf(old(emissionCount), r)
    {
      if rewardType in emissionCount {
        var count := emissionCount[rewardType] + 1;
        emissionCount := emissionCount[rewardType := count];
      } else {
        emissionCount := emissionCount[rewardType := 1];
      }
    }

    method GetTotalTransitionCount() returns (total: nat)
      ensures total == CountTotal(transitionCount)
    {
      total := TotalOfCounts(transitionCount);
    }

    method GetTotalEmissionCount() returns (total: nat)
      ensures total == CountTotal(emissionCount)
    {
      total := TotalOfCounts(emissionCount);
    }

    /** Turns the counters into probabilities: every counted transition and
        reward gets its count over the total of its kind (other stored
        probabilities are kept), and the initial probability becomes the
        initial count over `totalInitial`. */
    method UpdateProbFromCount(totalInitial: int)
      modifies this`initialProb, this`transitionProb, this`emissionProb
      ensures transitionProb == old(transitionProb) + Normalised(transitionCount, CountTotal(transitionCount))
      ensures emissionProb == old(emissionProb) + Normalised(emissionCount, CountTotal(emissionCount))
      ensures initialProb == Div(initialCount as real, totalInitial as real)
    {
      var totalTrans := GetTotalTransitionCount();
      transitionProb := PutNormalised(transitionProb, transitionCount, totalTrans);

      var totalEmission := GetTotalEmissionCount();
      emissionProb := PutNormalised(emissionProb, emissionCount, totalEmission);

      initialProb := Div(initialCount as real, totalInitial as real);
    }

    method SetInitialProb(val: real)
      modifies this`initialProb
      ensures GetInitialProb() == val
    {
      initialProb := val;
    }

    /** Stores one transition probability; getting it back yields val and
        every other target keeps its value. */
    method SetTransitionProb(transitionCell: Pos, val: real)
      modifies this`transitionProb
      ensures transitionProb == old(transitionProb)[transitionCell := val]
      ensures GetTransitionProb(transitionCell) == val
    {
      transitionProb := transitionProb[transitionCell := val];
    }

    method SetEmissionProb(rewardType: int, val: real)
      modifies this`emissionProb
      ensures emissionProb == old(emissionProb)[rewardType := val]
      ensures GetEmissionProb(rewardType) == val
    {
      emissionProb := emissionProb[rewardType := val];
    }

    function GetInitialProb(): real
      reads this
    {
      initialProb
    }

    /** The source unboxes a HashMap lookup, which fails on a missing key. */
    function GetTransitionProb(transitionTo: Pos): real
      reads this
      requires transitionTo in transitionProb
    {
      transitionProb[transitionTo]
    }

    function GetEmissionProb(rewardType: int): real
      reads this
      requires rewardType in emissionProb
    {
      emissionProb[rewardType]
    }

    // Staging storage for one EM sweep: none of these touch the active values.

    method SetTempInitialProb(val: real)
      modifies this`tempInitialProb
      ensures tempInitialProb == val
      ensures initialProb == old(initialProb) && transitionProb == old(transitionProb) && emissionProb == old(emissionProb)
    {
      tempInitialProb := val;
    }

    method SetTempTransitionProb(transitionCell: Pos, val: real)
      modifies this`tempTransitionProb
      ensures tempTransitionProb == old(tempTransitionProb)[transitionCell := val]
      ensures initialProb == old(initialProb) && transitionProb == old(transitionProb) && emissionProb == old(emissionProb)
    {
      tempTransitionProb := tempTransitionProb[transitionCell := val];
    }

    method SetTempEmissionProb(rewardType: int, val: real)
      modifies this`tempEmissionProb
      ensures tempEmissionProb == old(tempEmissionProb)[rewardType := val]
      ensures initialProb == old(initialProb) && transitionProb == old(transitionProb) && emissionProb == old(emissionProb)
    {
      tempEmissionProb := tempEmissionProb[rewardType := val];
    }

    /** Nothing counted, stored or staged yet: the state the constructor
        leaves. */
    ghost predicate Pristine()
      reads this
    {
      initialCount == 0 && transitionCount == map[] && emissionCount == map[] &&
      initialProb == 0.0 && transitionProb == map[] && emissionProb == map[] &&
      tempInitialProb == 0.0 && tempTransitionProb == map[] && tempEmissionProb == map[]
    }

    /** The staging copy holds these values. */
    ghost predicate StagedAs(initial: real, transition: map<Pos, real>, emission: map<int, real>)
      reads this
    {
      tempInitialProb == initial && tempTransitionProb == transition && tempEmissionProb == emission
    }

    /** The active parameters hold these values. */
    ghost predicate HoldsAs(initial: real, transition: map<Pos, real>, emission: map<int, real>)
      reads this
    {
      initialProb == initial && transitionProb == transition && emissionProb == emission
    }

    /** The staged values become the active ones and the staging copy is
        cleared.  Maps are values here, so the active maps can never share
        storage with the staging maps (the source copies them for that). */
    method CopyTempToActual()
      modifies this`initialProb, this`transitionProb, this`emissionProb
      modifies this`tempInitialProb, this`tempTransitionProb, this`tempEmissionProb
      ensures initialProb == old(tempInitialProb)
      ensures transitionProb == old(tempTransitionProb)
      ensures emissionProb == old(tempEmissionProb)
      ensures tempInitialProb == 0.0 && tempTransitionProb == map[] && tempEmissionProb == map[]
    {
      initialProb := tempInitialProb;
      transitionProb := tempTransitionProb;
      emissionProb := tempEmissionProb;

      tempInitialProb := 0.0;
      tempTransitionProb := map[];
      tempEmissionProb := map[];
    }
  }

  /** Lexicographic order on coordinates: by x, then by y. */
  predicate LexLess(a: Pos, b: Pos)
  {
    a.x < b.x || (a.x == b.x && a.y < b.y)
  }

  /** The comparator printCellParamaters sorts transition targets with, as
      written: it answers 1 or -1 and never 0. */
  function CompareCells(c1: Pos, c2: Pos): (r: int)
    ensures r == 1 || r == -1
    ensures c1 != c2 ==> (r == 1 <==> LexLess(c2, c1))
  {
    if c1.x > c2.x then 1
    else if c1.x == c2.x then
      if c1.y > c2.y then 1 else -1
    else -1
  }

  /** On two different coordinates the comparator is a strict total order. */
  lemma CompareCellsOnDistinct(a: Pos, b: Pos, c: Pos)
    requires a != b
    ensures CompareCells(a, b) == -CompareCells(b, a)
    ensures CompareCells(a, b) == 1 && CompareCells(b, c) == 1 && a != c ==> CompareCells(a, c) == 1
  {
  }

  /** Comparing a cell with itself answers -1 both ways round, so
      sgn(compare(a, a)) == -sgn(compare(a, a)), which a Java Comparator
      must satisfy, fails. */
  lemma CompareCellsNotAntisymmetricOnEqual(a: Pos)
    ensures CompareCells(a, a) == -1
    ensures CompareCells(a, a) != -CompareCells(a, a)
  {
  }

  /** The comparator with equal coordinates answering 0. */
  function CompareCellsFixed(c1: Pos, c2: Pos): (r: int)
    ensures r == 0 <==> c1 == c2
    ensures r == 1 <==> LexLess(c2, c1)
    ensures r == -1 <==> LexLess(c1, c2)
  {
    if c1 == c2 then 0 else CompareCells(c1, c2)
  }

  /** The corrected comparator meets the Comparator contract: it is
      antisymmetric in sign, transitive, and agrees with it wherever the
      coordinates differ. */
  lemma CompareCellsFixedIsComparator(a: Pos, b: Pos, c: Pos)
    ensures CompareCellsFixed(a, b) == -CompareCellsFixed(b, a)
    ensures CompareCellsFixed(a, b) > 0 && CompareCellsFixed(b, c) > 0 ==> CompareCellsFixed(a, c) > 0
    ensures CompareCellsFixed(a, b) == 0 ==> CompareCellsFixed(a, c) == CompareCellsFixed(b, c)
    ensures a != b ==> CompareCellsFixed(a, b) == CompareCells(a, b)
  {
  }
}

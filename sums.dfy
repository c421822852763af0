/**
 * Arithmetic shared by the whole model: Java's floating-point division on
 * probabilities, finite sums over sequences (the row-major loops of the
 * grid) and over sets (loops over a HashMap's key set), and the algebra of
 * those sums that the normalisation proofs rely on.
 */
module Sums {

  /** Java `a / b` on doubles, over the reals.  A zero denominator, where Java
      produces NaN or an infinity, yields 0 here; callers that must detect it
      test the denominator themselves. */
  function Div(n: real, d: real): real
  {
    if d == 0.0 then 0.0 else n / d
  }

  lemma DivSelf(d: real)
    requires d != 0.0
    ensures Div(d, d) == 1.0
  {
  }

  function Abs(v: real): real
  {
    if v < 0.0 then -v else v
  }

  /** The value stored under k, or 0 when k is absent (a probability the
      source never stored is an implicit zero). */
  function At<K>(m: map<K, real>, k: K): real
  {
    if k in m then m[k] else 0.0
  }

  /** A product of two factors already known. */
  lemma ProductIs(a: real, b: real, c: real, d: real)
    requires a == c && b == d
    ensures a * b == c * d
  {
  }

  /** The stored values of a map as a term for the sums below. */
  function Lookup<K>(m: map<K, real>): K -> real
  {
    k => At(m, k)
  }

  /** A sequence without repeated elements. */
  predicate Distinct<T(==)>(xs: seq<T>)
  {
    forall i, j :: 0 <= i < j < |xs| ==> xs[i] != xs[j]
  }

  /** The sum of f over xs, accumulated from the left as a loop does. */
  function Sum<T>(xs: seq<T>, f: T -> real): real
  {
    if xs == [] then 0.0 else Sum(xs[..|xs| - 1], f) + f(xs[|xs| - 1])
  }

  lemma {:induction false} SumAppend<T>(xs: seq<T>, ys: seq<T>, f: T -> real)
    ensures Sum(xs + ys, f) == Sum(xs, f) + Sum(ys, f)
    decreases |ys|
  {
    if ys == [] {
      assert xs + ys == xs;
    } else {
      var init := ys[..|ys| - 1];
      assert (xs + ys)[..|xs + ys| - 1] == xs + init;
      SumAppend(xs, init, f);
    }
  }

  lemma SumSingle<T>(x: T, f: T -> real)
    ensures Sum([x], f) == f(x)
  {
    assert [x][..0] == [];
  }

  lemma SumCons<T>(x: T, xs: seq<T>, f: T -> real)
    ensures Sum([x] + xs, f) == f(x) + Sum(xs, f)
  {
    SumAppend([x], xs, f);
    SumSingle(x, f);
  }

  /** Appending an element adds its term. */
  lemma SumSnoc<T>(xs: seq<T>, x: T, f: T -> real)
    ensures Sum(xs + [x], f) == Sum(xs, f) + f(x)
  {
    assert (xs + [x])[..|xs|] == xs;
  }

  /** Extending a prefix by one element adds that element's term. */
  lemma SumPrefixStep<T>(xs: seq<T>, k: nat, f: T -> real)
    requires k < |xs|
    ensures Sum(xs[..k + 1], f) == Sum(xs[..k], f) + f(xs[k])
  {
    assert xs[..k + 1][..k] == xs[..k];
  }

  lemma {:induction false} SumExt<T>(xs: seq<T>, f: T -> real, g: T -> real)
    requires forall x :: x in xs ==> f(x) == g(x)
    ensures Sum(xs, f) == Sum(xs, g)
    decreases |xs|
  {
    if xs != [] {
      SumExt(xs[..|xs| - 1], f, g);
    }
  }

  lemma {:induction false} SumZero<T>(xs: seq<T>, f: T -> real)
    requires forall x :: x in xs ==> f(x) == 0.0
    ensures Sum(xs, f) == 0.0
    decreases |xs|
  {
    if xs != [] {
      SumZero(xs[..|xs| - 1], f);
    }
  }

  lemma {:induction false} SumScale<T>(xs: seq<T>, f: T -> real, g: T -> real, a: real)
    requires forall x :: x in xs ==> g(x) == a * f(x)
    ensures Sum(xs, g) == a * Sum(xs, f)
    decreases |xs|
  {
    if xs != [] {
      SumScale(xs[..|xs| - 1], f, g, a);
    }
  }

  lemma {:induction false} SumAdd<T>(xs: seq<T>, f: T -> real, g: T -> real, h: T -> real)
    requires forall x :: x in xs ==> h(x) == f(x) + g(x)
    ensures Sum(xs, h) == Sum(xs, f) + Sum(xs, g)
    decreases |xs|
  {
    if xs != [] {
      SumAdd(xs[..|xs| - 1], f, g, h);
    }
  }

  /** Dividing every term by a common non-zero denominator. */
  lemma SumDiv<T>(xs: seq<T>, f: T -> real, g: T -> real, d: real)
    requires d != 0.0
    requires forall x :: x in xs ==> g(x) == Div(f(x), d)
    ensures Sum(xs, g) == Div(Sum(xs, f), d)
  {
    SumScale(xs, f, g, 1.0 / d);
  }

  /** A sum of terms each scaled by the sum itself adds up to one. */
  lemma SumNormalised<T>(xs: seq<T>, f: T -> real, g: T -> real)
    requires Sum(xs, f) != 0.0
    requires forall x :: x in xs ==> g(x) == Div(f(x), Sum(xs, f))
    ensures Sum(xs, g) == 1.0
  {
    var d := Sum(xs, f);
    SumDiv(xs, f, g, d);
    assert Div(d, d) == d / d == 1.0;
  }

  /** Summing a constant. */
  lemma {:induction false} SumConst<T>(xs: seq<T>, f: T -> real, c: real)
    requires forall x :: x in xs ==> f(x) == c
    ensures Sum(xs, f) == (|xs| as real) * c
    decreases |xs|
  {
    if xs != [] {
      SumConst(xs[..|xs| - 1], f, c);
    }
  }

  /** Removing an element at a known index. */
  lemma SumRemoveAt<T>(xs: seq<T>, i: nat, f: T -> real)
    requires i < |xs|
    ensures Sum(xs, f) == f(xs[i]) + Sum(xs[..i] + xs[i + 1..], f)
  {
    assert xs == xs[..i] + ([xs[i]] + xs[i + 1..]);
    SumAppend(xs[..i], [xs[i]] + xs[i + 1..], f);
    SumCons(xs[i], xs[i + 1..], f);
    SumAppend(xs[..i], xs[i + 1..], f);
  }

  /** A sum over distinct xs equals the sum over distinct ys when every
      element of ys occurs in xs and f vanishes on the rest of xs: the
      restricted sums of the adjacency-optimised recurrences rest on this. */
  lemma {:induction false} SumRestrict<T>(xs: seq<T>, ys: seq<T>, f: T -> real)
    requires Distinct(xs) && Distinct(ys)
    requires forall y :: y in ys ==> y in xs
    requires forall x :: x in xs && x !in ys ==> f(x) == 0.0
    ensures Sum(xs, f) == Sum(ys, f)
    decreases |xs|
  {
    if xs == [] {
      SumZero(ys, f);
    } else {
      var init, x := xs[..|xs| - 1], xs[|xs| - 1];
      assert xs == init + [x];
      assert Distinct(init);
      assert x !in init;
      if x in ys {
        var i :| 0 <= i < |ys| && ys[i] == x;
        var rest := ys[..i] + ys[i + 1..];
        RemoveAtFacts(ys, i);
        forall y | y in rest ensures y in init {
          assert y in xs && y != x;
        }
        SumRestrict(init, rest, f);
        SumRemoveAt(ys, i, f);
      } else {
        SumRestrict(init, ys, f);
      }
    }
  }

  /** Removing the element at index i from a sequence without repeats. */
  lemma RemoveAtFacts<T>(ys: seq<T>, i: nat)
    requires Distinct(ys) && i < |ys|
    ensures Distinct(ys[..i] + ys[i + 1..])
    ensures forall y :: y in ys[..i] + ys[i + 1..] <==> y in ys && y != ys[i]
  {
    var rest := ys[..i] + ys[i + 1..];
    forall a, b | 0 <= a < b < |rest| ensures rest[a] != rest[b] {
      var a' := if a < i then a else a + 1;
      var b' := if b < i then b else b + 1;
      assert rest[a] == ys[a'] && rest[b] == ys[b'];
    }
    forall y ensures y in rest <==> y in ys && y != ys[i] {
      if y in rest {
        var k :| 0 <= k < |rest| && rest[k] == y;
        var k' := if k < i then k else k + 1;
        assert ys[k'] == y;
      }
      if y in ys && y != ys[i] {
        var k :| 0 <= k < |ys| && ys[k] == y;
        var k' := if k < i then k else k - 1;
        assert rest[k'] == y;
      }
    }
  }

  /** The sum of an indicator over distinct xs holding y once. */
  lemma SumIndicator<T>(xs: seq<T>, y: T, f: T -> real)
    requires Distinct(xs) && y in xs
    requires forall x :: x in xs ==> f(x) == if x == y then 1.0 else 0.0
    ensures Sum(xs, f) == 1.0
  {
    SumRestrict(xs, [y], f);
    SumSingle(y, f);
  }

  // Nested sums and their interchange.

  function Row<A, B>(f: (A, B) -> real, a: A): B -> real
  {
    b => f(a, b)
  }

  function Col<A, B>(f: (A, B) -> real, b: B): A -> real
  {
    a => f(a, b)
  }

  function RowSums<A, B>(f: (A, B) -> real, bs: seq<B>): A -> real
  {
    a => Sum(bs, Row(f, a))
  }

  function ColSums<A, B>(f: (A, B) -> real, as_: seq<A>): B -> real
  {
    b => Sum(as_, Col(f, b))
  }

  /** Σ over as of Σ over bs equals Σ over bs of Σ over as. */
  lemma {:induction false} SumSwap<A, B>(as_: seq<A>, bs: seq<B>, f: (A, B) -> real)
    ensures Sum(as_, RowSums(f, bs)) == Sum(bs, ColSums(f, as_))
    decreases |as_|
  {
    if as_ == [] {
      SumZero(bs, ColSums(f, as_));
    } else {
      var init, a := as_[..|as_| - 1], as_[|as_| - 1];
      SumSwap(init, bs, f);
      forall b | b in bs
        ensures ColSums(f, as_)(b) == ColSums(f, init)(b) + Row(f, a)(b)
      {
      }
      SumAdd(bs, ColSums(f, init), Row(f, a), ColSums(f, as_));
    }
  }

  /** The sum over each x of xs of f(x, y) for the y that R(x) lists. */
  function RowsWithin<T>(f: (T, T) -> real, R: T -> seq<T>): T -> real
  {
    x => Sum(R(x), Row(f, x))
  }

  /** The sum over each y of xs of f(x, y) for the x that R(y) lists. */
  function ColsWithin<T>(f: (T, T) -> real, R: T -> seq<T>): T -> real
  {
    y => Sum(R(y), Col(f, y))
  }

  /** The sum over the pairs x, y of xs with y in R(x) may be taken row by
      row or column by column when R is a symmetric relation on xs. */
  lemma SumSwapWithin<T>(xs: seq<T>, R: T -> seq<T>, f: (T, T) -> real)
    requires Distinct(xs)
    requires forall x :: x in xs ==> Distinct(R(x)) && forall y :: y in R(x) ==> y in xs
    requires forall x, y :: x in xs && y in xs ==> (y in R(x) <==> x in R(y))
    ensures Sum(xs, RowsWithin(f, R)) == Sum(xs, ColsWithin(f, R))
  {
    var g := (x: T, y: T) => if y in R(x) then f(x, y) else 0.0;
    forall x | x in xs ensures RowSums(g, xs)(x) == RowsWithin(f, R)(x) {
      SumRestrict(xs, R(x), Row(g, x));
      SumExt(R(x), Row(g, x), Row(f, x));
    }
    forall y | y in xs ensures ColSums(g, xs)(y) == ColsWithin(f, R)(y) {
      SumRestrict(xs, R(y), Col(g, y));
      SumExt(R(y), Col(g, y), Col(f, y));
    }
    SumExt(xs, RowSums(g, xs), RowsWithin(f, R));
    SumExt(xs, ColSums(g, xs), ColsWithin(f, R));
    SumSwap(xs, xs, g);
  }

  // Sums over finite sets: the loops over a HashMap's key set.

  ghost function SetSum<K>(s: set<K>, f: K -> real): real
    decreases s
  {
    if s == {} then 0.0 else var x :| x in s; f(x) + SetSum(s - {x}, f)
  }

  /** SetSum does not depend on which element is taken out first. */
  lemma {:induction false} SetSumRemove<K>(s: set<K>, y: K, f: K -> real)
    requires y in s
    ensures SetSum(s, f) == f(y) + SetSum(s - {y}, f)
    decreases s
  {
    var x :| x in s && SetSum(s, f) == f(x) + SetSum(s - {x}, f);
    if x != y {
      SetSumRemove(s - {x}, y, f);
      SetSumRemove(s - {y}, x, f);
      assert s - {x} - {y} == s - {y} - {x};
    }
  }

  lemma {:induction false} SetSumExt<K>(s: set<K>, f: K -> real, g: K -> real)
    requires forall x :: x in s ==> f(x) == g(x)
    ensures SetSum(s, f) == SetSum(s, g)
    decreases s
  {
    if s != {} {
      var y :| y in s;
      SetSumRemove(s, y, f);
      SetSumRemove(s, y, g);
      SetSumExt(s - {y}, f, g);
    }
  }

  lemma SetSumScale<K>(s: set<K>, f: K -> real, g: K -> real, a: real)
    requires forall x :: x in s ==> g(x) == a * f(x)
    ensures SetSum(s, g) == a * SetSum(s, f)
  {
    var xs := SetAsSeq(s);
    SetSumOfSeq(xs, f);
    SetSumOfSeq(xs, g);
    SumScale(xs, f, g, a);
  }

  /** Terms divided by their own non-zero total add up to one. */
  lemma SetSumNormalised<K>(s: set<K>, f: K -> real, g: K -> real)
    requires SetSum(s, f) != 0.0
    requires forall x :: x in s ==> g(x) == Div(f(x), SetSum(s, f))
    ensures SetSum(s, g) == 1.0
  {
    SetSumScale(s, f, g, 1.0 / SetSum(s, f));
  }

  /** Over a sequence without repeats, the set sum and the sequence sum agree. */
  lemma {:induction false} SetSumOfSeq<K>(xs: seq<K>, f: K -> real)
    requires Distinct(xs)
    ensures SetSum((set x | x in xs), f) == Sum(xs, f)
    decreases |xs|
  {
    if xs != [] {
      var init, x := xs[..|xs| - 1], xs[|xs| - 1];
      assert xs == init + [x];
      assert x !in init;
      assert Distinct(init);
      var s := set z | z in xs;
      assert s - {x} == set z | z in init;
      SetSumRemove(s, x, f);
      SetSumOfSeq(init, f);
    }
  }

  /** Every finite set can be listed without repeats. */
  lemma {:induction false} SetAsSeq<K>(s: set<K>) returns (xs: seq<K>)
    ensures Distinct(xs) && (set x | x in xs) == s
    decreases s
  {
    if s == {} {
      xs := [];
    } else {
      var y :| y in s;
      var ys := SetAsSeq(s - {y});
      assert y !in ys by {
        assert forall x :: x in ys ==> x in (set z | z in ys);
      }
      xs := ys + [y];
      forall i, j | 0 <= i < j < |xs| ensures xs[i] != xs[j] {
        if j == |ys| {
          assert xs[i] in ys;
        }
      }
      forall x ensures x in (set z | z in xs) <==> x in s {
        assert x in (set z | z in xs) <==> x in xs;
        assert x in xs <==> x in ys || x == y;
        assert x in ys <==> x in s - {y};
      }
    }
  }

  // Totals of integer counters held in a map: getTotal*Count.

  ghost function CountSum<K>(m: map<K, nat>, s: set<K>): nat
    requires s <= m.Keys
    decreases s
  {
    if s == {} then 0 else var x :| x in s; m[x] + CountSum(m, s - {x})
  }

  lemma {:induction false} CountSumRemove<K>(m: map<K, nat>, s: set<K>, y: K)
    requires s <= m.Keys && y in s
    ensures CountSum(m, s) == m[y] + CountSum(m, s - {y})
    decreases s
  {
    var x :| x in s && CountSum(m, s) == m[x] + CountSum(m, s - {x});
    if x != y {
      CountSumRemove(m, s - {x}, y);
      CountSumRemove(m, s - {y}, x);
      assert s - {x} - {y} == s - {y} - {x};
    }
  }

  /** The total of every counter in a map. */
  ghost function CountTotal<K>(m: map<K, nat>): nat
  {
    CountSum(m, m.Keys)
  }

  /** A counter's share of the total, as a real term over the keys. */
  function Share<K>(m: map<K, nat>, total: nat): K -> real
  {
    k => if k in m then Div(m[k] as real, total as real) else 0.0
  }

  function AsReal<K>(m: map<K, nat>): K -> real
  {
    k => if k in m then m[k] as real else 0.0
  }

  lemma {:induction false} CountSumAsReal<K>(m: map<K, nat>, s: set<K>)
    requires s <= m.Keys
    ensures SetSum(s, AsReal(m)) == CountSum(m, s) as real
    decreases s
  {
    if s != {} {
      var y :| y in s;
      SetSumRemove(s, y, AsReal(m));
      CountSumRemove(m, s, y);
      CountSumAsReal(m, s - {y});
    }
  }

  /** Counters divided by their total form a distribution whenever the total
      is positive. */
  lemma SharesSumToOne<K>(m: map<K, nat>)
    requires CountTotal(m) > 0
    ensures SetSum(m.Keys, Share(m, CountTotal(m))) == 1.0
  {
    CountSumAsReal(m, m.Keys);
    SetSumNormalised(m.Keys, AsReal(m), Share(m, CountTotal(m)));
  }

  // Accumulating into a map, one element at a time.

  /** The identity, as a key function. */
  function Id<K>(): K -> K
  {
    k => k
  }

  /** m after adding f(x) to the entry for key(x), an absent entry counting
      as 0, for each x of xs in turn: a HashMap accumulator updated with
      containsKey, get and put. */
  function AddEach<T, K>(m: map<K, real>, xs: seq<T>, key: T -> K, f: T -> real): map<K, real>
  {
    if xs == [] then m
    else
      var acc := AddEach(m, xs[..|xs| - 1], key, f);
      var x := xs[|xs| - 1];
      acc[key(x) := At(acc, key(x)) + f(x)]
  }

  lemma AddEachStep<T, K>(m: map<K, real>, xs: seq<T>, key: T -> K, f: T -> real, k: nat)
    requires k < |xs|
    ensures AddEach(m, xs[..k + 1], key, f) ==
            AddEach(m, xs[..k], key, f)[key(xs[k]) := At(AddEach(m, xs[..k], key, f), key(xs[k])) + f(xs[k])]
  {
    assert xs[..k + 1][..k] == xs[..k];
  }

  /** AddEachStep for an entry and a value already looked up. */
  lemma AddEachStepIs<T, K>(m: map<K, real>, xs: seq<T>, key: T -> K, f: T -> real, k: nat,
                            acc: map<K, real>, kk: K, v: real)
    requires k < |xs|
    requires acc == AddEach(m, xs[..k], key, f) && key(xs[k]) == kk && v == At(acc, kk) + f(xs[k])
    ensures AddEach(m, xs[..k + 1], key, f) == acc[kk := v]
  {
    assert xs[..k + 1][..k] == xs[..k];
  }

  /** The accumulator gains exactly the keys of the elements. */
  lemma {:induction false} AddEachKeys<T, K>(m: map<K, real>, xs: seq<T>, key: T -> K, f: T -> real)
    ensures AddEach(m, xs, key, f).Keys == m.Keys + (set x | x in xs :: key(x))
  {
    if xs != [] {
      var init, x := xs[..|xs| - 1], xs[|xs| - 1];
      AddEachKeys(m, init, key, f);
      assert xs == init + [x];
      assert (set y | y in xs :: key(y)) == (set y | y in init :: key(y)) + {key(x)};
    }
  }

  /** Adding a value to one entry of a map adds it to the sum of the map's
      entries. */
  lemma SetSumBump<K>(m: map<K, real>, m': map<K, real>, k: K, x: real)
    requires m' == m[k := At(m, k) + x]
    ensures SetSum(m'.Keys, Lookup(m')) == SetSum(m.Keys, Lookup(m)) + x
  {
    SetSumRemove(m'.Keys, k, Lookup(m'));
    SetSumExt(m'.Keys - {k}, Lookup(m'), Lookup(m));
    if k in m {
      SetSumRemove(m.Keys, k, Lookup(m));
      assert m'.Keys - {k} == m.Keys - {k};
    } else {
      assert m'.Keys - {k} == m.Keys;
    }
  }

  /** The accumulator's entries together gain exactly the sum of f over the
      elements. */
  lemma {:induction false} AddEachTotal<T, K>(m: map<K, real>, xs: seq<T>, key: T -> K, f: T -> real)
    ensures SetSum(AddEach(m, xs, key, f).Keys, Lookup(AddEach(m, xs, key, f))) == SetSum(m.Keys, Lookup(m)) + Sum(xs, f)
  {
    if xs != [] {
      var init, x := xs[..|xs| - 1], xs[|xs| - 1];
      var acc := AddEach(m, init, key, f);
      var acc' := acc[key(x) := At(acc, key(x)) + f(x)];
      assert AddEach(m, xs, key, f) == acc';
      AddEachTotal(m, init, key, f);
      SetSumBump(acc, acc', key(x), f(x));
      assert Sum(xs, f) == Sum(init, f) + f(x);
    }
  }

  /** With the identity as key and distinct elements, each element's entry
      gains its own f value once and every other entry is kept. */
  lemma {:induction false} AddEachDistinctAt<K>(m: map<K, real>, ks: seq<K>, f: K -> real, n: K)
    requires Distinct(ks)
    ensures n in AddEach(m, ks, Id(), f) <==> n in m || n in ks
    ensures n in ks ==> AddEach(m, ks, Id(), f)[n] == At(m, n) + f(n)
    ensures n !in ks && n in m ==> AddEach(m, ks, Id(), f)[n] == m[n]
  {
    if ks != [] {
      var init := ks[..|ks| - 1];
      assert ks == init + [ks[|ks| - 1]];
      AddEachDistinctAt(m, init, f, n);
    }
  }
}

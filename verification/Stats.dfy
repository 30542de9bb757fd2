/**
 Streaming statistics over the reals against their batch definitions. What is
 recomputed on every call and what piles up is stated through `seen`, all values
 that any call has gone over.
 */
module Stats {

  import opened Arith
  import opened Wrappers

  // ----- batch definitions

  function Sum(xs: seq<real>): real {
    if xs == [] then 0.0 else Sum(xs[..|xs| - 1]) + xs[|xs| - 1]
  }

  function Square(x: real): real {
    x * x
  }

  function SumOfSquares(xs: seq<real>): real {
    if xs == [] then 0.0 else SumOfSquares(xs[..|xs| - 1]) + Square(xs[|xs| - 1])
  }

  /** The sum of the squares of the distances to `c`. */
  function Deviations(xs: seq<real>, c: real): real {
    if xs == [] then 0.0
    else Deviations(xs[..|xs| - 1], c) + Square(xs[|xs| - 1] - c)
  }

  function Variance(s: real, n: nat): real
    requires n > 1
  {
    s / (n - 1) as real
  }

  ghost predicate IsLeast(xs: seq<real>, m: real) {
    m in xs && forall x :: x in xs ==> m <= x
  }

  ghost predicate IsGreatest(xs: seq<real>, m: real) {
    m in xs && forall x :: x in xs ==> x <= m
  }

  /** `xs` gone over `k` times. */
  function Repeat(xs: seq<real>, k: nat): seq<real> {
    if k == 0 then [] else Repeat(xs, k - 1) + xs
  }

  // ----- sums

  lemma {:induction false} SumAppend(xs: seq<real>, ys: seq<real>)
    ensures Sum(xs + ys) == Sum(xs) + Sum(ys)
    ensures SumOfSquares(xs + ys) == SumOfSquares(xs) + SumOfSquares(ys)
  {
    hide Square;
    if ys == [] {
      assert xs + ys == xs;
    } else {
      SumAppend(xs, ys[..|ys| - 1]);
      assert (xs + ys)[..|xs + ys| - 1] == xs + ys[..|ys| - 1];
    }
  }

  /** What `DeviationsExpand` states, of plain numbers. */
  predicate Expands(d: real, q: real, s: real, n: real, c: real) {
    d == q - 2.0 * c * s + n * (c * c)
  }

  lemma {:induction false} ExpandStep(d: real, q: real, s: real, n: real, c: real, x: real)
    requires Expands(d, q, s, n, c)
    ensures Expands(d + Square(x - c), q + Square(x), s + x, n + 1.0, c)
  {
    assert (x - c) * (x - c) == x * x - 2.0 * c * x + c * c;
    assert 2.0 * c * (s + x) == 2.0 * c * s + 2.0 * c * x;
    assert (n + 1.0) * (c * c) == n * (c * c) + c * c;
  }

  lemma {:induction false} DeviationsExpand(xs: seq<real>, c: real)
    ensures Expands(Deviations(xs, c), SumOfSquares(xs), Sum(xs), |xs| as real, c)
  {
    if xs != [] {
      hide Expands, Square;
      var ys, x := xs[..|xs| - 1], xs[|xs| - 1];
      DeviationsExpand(ys, c);
      ExpandStep(Deviations(ys, c), SumOfSquares(ys), Sum(ys), |ys| as real, c, x);
    }
  }

  lemma {:induction false} ExpandsAtMean(d: real, q: real, s: real, n: real, m: real)
    requires Expands(d, q, s, n, m) && n * m == s
    ensures d == q - n * (m * m)
  {
    assert m * (n * m) == n * (m * m);
    assert 2.0 * m * s == 2.0 * (m * s);
  }

  /** Around the mean, the deviations are the squares less n times the squared mean. */
  lemma {:induction false} DeviationsAtMean(xs: seq<real>, m: real)
    requires |xs| as real * m == Sum(xs)
    ensures Deviations(xs, m) == SumOfSquares(xs) - |xs| as real * (m * m)
  {
    hide *;
    DeviationsExpand(xs, m);
    ExpandsAtMean(Deviations(xs, m), SumOfSquares(xs), Sum(xs), |xs| as real, m);
  }

  // ----- one value more

  lemma {:induction false} NextMean(k: real, a: real, x: real, m: real)
    requires k >= 0.0 && m == a + (x - a) / (k + 1.0)
    ensures (k + 1.0) * m == k * a + x
  {
    assert (k + 1.0) * ((x - a) / (k + 1.0)) == x - a;
    assert (k + 1.0) * m == (k + 1.0) * a + (x - a);
  }

  lemma {:induction false} NextSquares(k: real, a: real, x: real, m: real)
    requires (k + 1.0) * m == k * a + x
    ensures x * x - (k + 1.0) * (m * m) + k * (a * a) == (x - a) * (x - m)
  {
    assert (k + 1.0) * (m * m) == (k * a + x) * m;
    assert a * ((k + 1.0) * m) == a * (k * a + x);
    assert (k * a + x) * m == k * (a * m) + x * m;
    assert a * ((k + 1.0) * m) == k * (a * m) + a * m;
    assert a * (k * a + x) == k * (a * a) + a * x;
    assert (x - a) * (x - m) == x * x - x * m - a * x + a * m;
  }

  /** The streaming update takes the statistics of `xs` to those of `xs` and one value more. */
  lemma {:induction false} StreamingUpdate(xs: seq<real>, x: real, a: real, m: real)
    requires |xs| as real * a == Sum(xs) && m == a + (x - a) / (|xs| + 1) as real
    ensures (|xs| + 1) as real * m == Sum(xs + [x])
    ensures Deviations(xs + [x], m) == Deviations(xs, a) + (x - a) * (x - m)
  {
    hide Deviations;
    LastOne(xs, x);
    hide *;
    var k := |xs| as real;
    assert |xs + [x]| as real == k + 1.0;
    NextMean(k, a, x, m);
    DeviationsAtMean(xs, a);
    DeviationsAtMean(xs + [x], m);
    NextSquares(k, a, x, m);
  }

  lemma {:induction false} OneMoreTerm(before: seq<real>, xs: seq<real>, i: nat)
    requires i < |xs|
    ensures before + xs[..i] + [xs[i]] == before + xs[..i + 1]
    ensures Sum(xs[..i + 1]) == Sum(xs[..i]) + xs[i]
  {
    assert xs[..i + 1][..i] == xs[..i];
  }

  lemma {:induction false} LastOne(xs: seq<real>, x: real)
    ensures Sum(xs + [x]) == Sum(xs) + x
    ensures SumOfSquares(xs + [x]) == SumOfSquares(xs) + x * x
  {
    assert (xs + [x])[..|xs + [x]| - 1] == xs;
  }

  // ----- the same store collected again

  lemma {:induction false} OneMore(j: nat, a: real)
    ensures (j + 1) as real * a == j as real * a + a
  {
    assert (j + 1) as real == j as real + 1.0;
  }

  lemma {:induction false} RepeatSize(xs: seq<real>, k: nat)
    ensures |Repeat(xs, k)| == k * |xs|
  {
    if k > 0 {
      RepeatSize(xs, k - 1);
      assert k * |xs| == (k - 1) * |xs| + |xs|;
    }
  }

  lemma {:induction false} RepeatSum(xs: seq<real>, k: nat)
    ensures Sum(Repeat(xs, k)) == k as real * Sum(xs)
  {
    if k > 0 {
      hide Sum;
      RepeatSum(xs, k - 1);
      SumAppend(Repeat(xs, k - 1), xs);
      OneMore(k - 1, Sum(xs));
    } else {
      assert Sum([]) == 0.0;
    }
  }

  lemma {:induction false} RepeatSquares(xs: seq<real>, k: nat)
    ensures SumOfSquares(Repeat(xs, k)) == k as real * SumOfSquares(xs)
  {
    if k > 0 {
      hide SumOfSquares;
      RepeatSquares(xs, k - 1);
      SumAppend(Repeat(xs, k - 1), xs);
      OneMore(k - 1, SumOfSquares(xs));
    } else {
      assert SumOfSquares([]) == 0.0;
    }
  }

  lemma {:induction false} RepeatHas(xs: seq<real>, k: nat, x: real)
    requires k > 0
    ensures x in Repeat(xs, k) <==> x in xs
  {
    if k > 1 {
      RepeatHas(xs, k - 1, x);
    } else {
      assert Repeat(xs, 1) == xs;
    }
  }

  lemma {:induction false} Scaled(k: nat, n: nat, m: real)
    ensures (k * n) as real * m == k as real * (n as real * m)
  {
    if k > 0 {
      Scaled(k - 1, n, m);
      assert k * n == (k - 1) * n + n;
      assert (k * n) as real == ((k - 1) * n) as real + n as real;
      OneMore(k - 1, n as real * m);
    }
  }

  lemma {:induction false} ScaledDifference(k: real, a: real, b: real)
    ensures k * (a - b) == k * a - k * b
  {
  }

  lemma {:induction false} RepeatMean(xs: seq<real>, k: nat, m: real)
    requires |xs| as real * m == Sum(xs)
    ensures |Repeat(xs, k)| as real * m == Sum(Repeat(xs, k))
  {
    hide *;
    RepeatSize(xs, k);
    RepeatSum(xs, k);
    Scaled(k, |xs|, m);
  }

  /** Going over a store k times keeps its mean; count and deviations become k times as large. */
  lemma {:induction false} CollectedAgain(xs: seq<real>, k: nat, m: real)
    requires |xs| as real * m == Sum(xs)
    ensures |Repeat(xs, k)| == k * |xs|
    ensures |Repeat(xs, k)| as real * m == Sum(Repeat(xs, k))
    ensures Deviations(Repeat(xs, k), m) == k as real * Deviations(xs, m)
  {
    hide *;
    RepeatSize(xs, k);
    RepeatSquares(xs, k);
    RepeatMean(xs, k, m);
    DeviationsAtMean(xs, m);
    DeviationsAtMean(Repeat(xs, k), m);
    var mm := m * m;
    Scaled(k, |xs|, mm);
    ScaledDifference(k as real, SumOfSquares(xs), |xs| as real * mm);
  }

  /** Going over a store again keeps its extremes. */
  lemma {:induction false} ExtremesKept(xs: seq<real>, k: nat, y: real)
    requires k > 0
    ensures IsLeast(Repeat(xs, k), y) <==> IsLeast(xs, y)
    ensures IsGreatest([0.0] + Repeat(xs, k), y) <==> IsGreatest([0.0] + xs, y)
  {
    forall x ensures x in Repeat(xs, k) <==> x in xs {
      RepeatHas(xs, k, x);
    }
    assert forall x :: x in [0.0] + Repeat(xs, k) <==> x in [0.0] + xs;
  }

  /** The variance after k calls is that of the store exactly when there was one call or nothing deviates. */
  lemma {:induction false} VarianceKeptIff(xs: seq<real>, k: nat, m: real)
    requires k > 0 && |xs| > 1 && |xs| as real * m == Sum(xs)
    ensures |Repeat(xs, k)| > 1
    ensures Variance(Deviations(Repeat(xs, k), m), |Repeat(xs, k)|) == Variance(Deviations(xs, m), |xs|)
            <==> k == 1 || Deviations(xs, m) == 0.0
  {
    hide Sum, Deviations, Repeat;
    CollectedAgain(xs, k, m);
    MulMonotone(|xs|, 1, k);
    RatioKeptIff(Deviations(xs, m), |xs|, k);
  }

  lemma {:induction false} RatioKeptIff(s: real, n: nat, k: nat)
    requires n > 1 && k > 0 && k * n >= n
    ensures Variance(k as real * s, k * n) == Variance(s, n) <==> k == 1 || s == 0.0
  {
    var d, e, r := (n - 1) as real, (k * n - 1) as real, k as real;
    assert e == r * d + (r - 1.0) by {
      Scaled(k, n, 1.0);
      ScaledDifference(r, n as real, 1.0);
    }
    SameRatio(r * s, e, s, d);
    assert s * e == s * (r * d) + s * (r - 1.0);
    assert r * s * d == s * (r * d);
  }

  lemma {:induction false} SameRatio(a: real, b: real, c: real, d: real)
    requires b > 0.0 && d > 0.0
    ensures a / b == c / d <==> a * d == c * b
  {
    assert a == (a / b) * b && c == (c / d) * d;
    var p, q := a / b, c / d;
    assert a * d == p * (b * d) && c * b == q * (b * d);
  }

  // ----- the extremes

  /** A fresh maximum is 0, so what is kept is the greatest value exactly when some value is not negative. */
  lemma {:induction false} MaxIsRightIff(xs: seq<real>, m: real)
    requires IsGreatest([0.0] + xs, m)
    ensures IsGreatest(xs, m) <==> exists i :: 0 <= i < |xs| && xs[i] >= 0.0
  {
    assert forall x :: x in [0.0] + xs <==> x == 0.0 || x in xs;
    assert 0.0 <= m by {
      assert 0.0 in [0.0] + xs;
    }
    if m in xs {
      var i :| 0 <= i < |xs| && xs[i] == m;
    }
    if i :| 0 <= i < |xs| && xs[i] >= 0.0 {
      assert xs[i] in xs;
    }
  }

  /** One negative value is enough to see a wrong maximum. */
  lemma {:induction false} MaxOfNegatives()
    ensures IsGreatest([0.0] + [-1.0], 0.0) && !IsGreatest([-1.0], 0.0)
  {
    assert [0.0] + [-1.0] == [0.0, -1.0];
    assert 0.0 in [0.0, -1.0];
  }

  // ----- running statistics

  ghost predicate Moments(xs: seq<real>, m: real, s: real) {
    |xs| as real * m == Sum(xs) && s == Deviations(xs, m)
  }

  ghost predicate Extremes(xs: seq<real>, min: real, max: real) {
    (xs != [] ==> IsLeast(xs, min)) && IsGreatest([0.0] + xs, max)
  }

  lemma {:induction false} FirstMoments(x: real, m: real, s: real)
    requires Moments([], m, s)
    ensures s == 0.0 && Moments([x], x, s)
  {
    assert Sum([x]) == x && Deviations([x], x) == 0.0 == s;
  }

  function MeanAfter(m: real, x: real, n: nat): real
    requires n > 0
  {
    m + (x - m) / n as real
  }

  function SquaresAfter(s: real, x: real, m: real, m': real): real {
    s + (x - m) * (x - m')
  }

  lemma {:induction false} NextMoments(xs: seq<real>, x: real, m: real, s: real, m': real)
    requires Moments(xs, m, s) && m' == MeanAfter(m, x, |xs| + 1)
    ensures Moments(xs + [x], m', SquaresAfter(s, x, m, m'))
  {
    hide Sum, Deviations;
    StreamingUpdate(xs, x, m, m');
    assert |xs + [x]| == |xs| + 1;
  }

  lemma {:induction false} NextExtremes(xs: seq<real>, x: real, min: real, max: real)
    requires Extremes(xs, min, max)
    ensures Extremes(xs + [x], if min > x || xs == [] then x else min, if max < x then x else max)
  {
    assert forall y :: y in xs + [x] <==> y in xs || y == x;
    assert forall y :: y in [0.0] + (xs + [x]) <==> y in [0.0] + xs || y == x;
  }

  lemma {:induction false} MeanKept(xs: seq<real>, k: nat, m: real, m': real)
    requires k > 0 && xs != [] && |xs| as real * m == Sum(xs)
    requires |Repeat(xs, k)| as real * m' == Sum(Repeat(xs, k))
    ensures m' == m
  {
    hide *;
    RepeatMean(xs, k, m);
    RepeatSize(xs, k);
    MulMonotone(|xs|, 1, k);
    SameQuotient(|Repeat(xs, k)| as real, Sum(Repeat(xs, k)), m, m');
  }

  /** The statistics of a store gone over k times are those of the store, but for the squares. */
  lemma {:induction false} SameAsFirst(xs: seq<real>, k: nat, m: real, s: real, min: real, max: real,
                                       m': real, s': real, min': real, max': real)
    requires k > 0 && Moments(xs, m, s) && Extremes(xs, min, max)
    requires Moments(Repeat(xs, k), m', s') && Extremes(Repeat(xs, k), min', max')
    ensures |Repeat(xs, k)| == k * |xs|
    ensures xs != [] ==> m' == m && min' == min && max' == max
    ensures s' == k as real * s
  {
    hide Repeat, Sum, Deviations;
    CollectedAgain(xs, k, m);
    ExtremesKept(xs, k, min');
    ExtremesKept(xs, k, max');
    if xs != [] {
      MeanKept(xs, k, m, m');
    } else {
      RepeatNothing(k);
      assert s == 0.0 && s' == 0.0 by {
        NothingDeviates(m);
        NothingDeviates(m');
      }
    }
  }

  lemma {:induction false} SameQuotient(n: real, t: real, a: real, b: real)
    requires n > 0.0 && n * a == t && n * b == t
    ensures a == b
  {
    assert n * (a - b) == n * a - n * b;
  }

  lemma {:induction false} RepeatNothing(k: nat)
    ensures Repeat([], k) == []
  {
    if k > 0 {
      RepeatNothing(k - 1);
    }
  }

  lemma {:induction false} NothingDeviates(m: real)
    ensures Deviations([], m) == 0.0
  {
  }

  // ----- the object

  class Value {
    var min: real
    var max: real
    var sum: real
    var n: nat
    var oldM: real
    var newM: real
    var oldS: real
    var newS: real
    /** The square of the deviation; None is not-a-number. */
    var devSquared: Option<real>
    var store: seq<real>
    ghost var seen: seq<real>

    /** Every field is the batch statistic of `seen`. */
    ghost predicate Valid()
      reads this
    {
      && n == |seen|
      && newM == oldM && newS == oldS
      && Moments(seen, newM, newS)
      && Extremes(seen, min, max)
      && (n > 1 ==> devSquared == Some(Variance(newS, n)))
      && (n == 1 ==> devSquared == None)
    }

    constructor ()
      ensures Valid() && store == [] && seen == []
    {
      min, max, sum, n, oldM, newM, oldS, newS := 0.0, 0.0, 0.0, 0, 0.0, 0.0, 0.0, 0.0;
      devSquared, store, seen := Some(0.0), [], [];
    }

    /** What was collected stays as it is until the next Collect. */
    method Store(newTime: real)
      requires Valid()
      modifies this`store
      ensures Valid() && store == old(store) + [newTime]
    {
      store := store + [newTime];
    }

    /** Adds one value to the running statistics. */
    method Add(newTime: real)
      requires Valid()
      modifies this
      ensures Valid() && seen == old(seen) + [newTime]
      ensures sum == old(sum) + newTime && store == old(store)
    {
      hide Moments, Extremes, MeanAfter, SquaresAfter, Variance;
      NextExtremes(seen, newTime, min, max);
      if min > newTime || n == 0 {
        min := newTime;
      }
      if max < newTime {
        max := newTime;
      }
      n := n + 1;
      if n == 1 {
        assert seen == [] && seen + [newTime] == [newTime];
        FirstMoments(newTime, newM, newS);
        oldM := newTime;
        newM := newTime;
        oldS := 0.0;
      } else {
        newM := MeanAfter(oldM, newTime, n);
        newS := SquaresAfter(oldS, newTime, oldM, newM);
        NextMoments(seen, newTime, oldM, oldS, newM);
        oldM := newM;
        oldS := newS;
      }
      devSquared := if n == 1 then None else Some(Variance(newS, n));
      sum := sum + newTime;
      seen := seen + [newTime];
    }

    /** Goes over the store once more. Only the sum starts afresh. */
    method Collect()
      requires Valid()
      modifies this
      ensures Valid() && seen == old(seen) + store && store == old(store)
      ensures sum == Sum(store)
      ensures store == [] ==> newM == old(newM) && min == old(min) && max == old(max)
    {
      sum := 0.0;
      var i := 0;
      assert Sum(store[..i]) == 0.0 && Valid();
      hide Value.Valid, Sum;
      while i < |store|
        invariant 0 <= i <= |store| && store == old(store)
        invariant Valid() && seen == old(seen) + store[..i]
        invariant sum == Sum(store[..i])
        invariant i == 0 ==> newM == old(newM) && min == old(min) && max == old(max)
      {
        OneMoreTerm(old(seen), store, i);
        Add(store[i]);
        i := i + 1;
      }
      assert store[..i] == store;
    }

    /**
     Collects k times; returns what the first call gave. Average, sum, minimum and
     maximum stay, the count and the deviations become k times as large.
     */
    method CollectTimes(k: nat) returns (n1: nat, mean1: real, squares1: real, sum1: real, min1: real, max1: real)
      requires Valid() && seen == [] && k > 0
      modifies this
      ensures Valid() && store == old(store) && seen == Repeat(store, k)
      ensures n1 == |store| && Moments(store, mean1, squares1) && Extremes(store, min1, max1) && sum1 == Sum(store)
      ensures n == k * n1 && newS == k as real * squares1
      ensures newM == mean1 && sum == sum1 && min == min1 && max == max1
    {
      Collect();
      assert seen == [] + store == store && Repeat(store, 1) == [] + store;
      n1, mean1, squares1, sum1, min1, max1 := n, newM, newS, sum, min, max;
      var j := 1;
      while j < k
        invariant 1 <= j <= k && Valid() && store == old(store) && seen == Repeat(store, j)
        invariant newM == mean1 && sum == sum1 && min == min1 && max == max1
      {
        hide Moments, Extremes, Sum, Variance;
        assert Repeat(store, j + 1) == Repeat(store, j) + store;
        hide Repeat;
        ghost var before := seen;
        Collect();
        assert seen == before + store;
        j := j + 1;
        SameAsFirst(store, j, mean1, squares1, min1, max1, newM, newS, min, max);
      }
      SameAsFirst(store, k, mean1, squares1, min1, max1, newM, newS, min, max);
    }
  }
}

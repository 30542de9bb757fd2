/**
 Powers and the geometric sum 1 + b + ... + b^(k-1): the number of nodes in the
 first k levels of a full b-ary tree.
 */
module Geometric {
  import opened Arith

  function Pow(b: nat, e: nat): nat {
    if e == 0 then 1 else b * Pow(b, e - 1)
  }

  /** Sum of the first `k` powers of `b`. */
  function Geo(b: nat, k: nat): nat {
    if k == 0 then 0 else Geo(b, k - 1) + Pow(b, k - 1)
  }

  lemma {:induction false} PowPositive(b: nat, e: nat)
    requires b >= 1
    ensures Pow(b, e) >= 1
  {
    if e > 0 {
      PowPositive(b, e - 1);
    }
  }

  lemma {:induction false} GeoMonotone(b: nat, j: nat, k: nat)
    requires b >= 1 && j <= k
    ensures Geo(b, j) + (k - j) <= Geo(b, k)
  {
    if j < k {
      GeoMonotone(b, j, k - 1);
      PowPositive(b, k - 1);
    }
  }

  /** Levels are disjoint intervals, so an index lies on one level only. */
  lemma GeoLevelUnique(b: nat, j: nat, k: nat, x: nat)
    requires b >= 1
    requires Geo(b, j) <= x < Geo(b, j + 1)
    requires Geo(b, k) <= x < Geo(b, k + 1)
    ensures j == k
  {
    if j < k {
      GeoMonotone(b, j + 1, k);
    } else if k < j {
      GeoMonotone(b, k + 1, j);
    }
  }

  lemma {:induction false} PowStep(b: nat, k: nat)
    ensures Pow(b, k) == if k == 0 then 1 else b * Pow(b, k - 1)
  {
  }

  /** The closed form behind the geometric sum, without the division. */
  lemma {:induction false} GeoClosedForm(b: nat, k: nat)
    requires b >= 1
    ensures (b - 1) * Geo(b, k) == Pow(b, k) - 1
  {
    if k > 0 {
      GeoClosedForm(b, k - 1);
      ClosedStep(b, Geo(b, k - 1), Pow(b, k - 1));
    }
  }

  lemma {:induction false} ClosedStep(b: nat, g: nat, p: nat)
    requires b >= 1 && (b - 1) * g == p - 1
    ensures (b - 1) * (g + p) == b * p - 1
  {
    Distribute(b - 1, g, p);
    Distribute(p, b - 1, 1);
  }
}

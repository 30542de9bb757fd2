/**
 How evenly the last row of a generated tree is spread over its parents. With `len`
 parents and `row` nodes to place, the quotient rule is even for few nodes, for an
 almost full row, and for a handful of short rows, and for nothing else.
 */
module LastRow {
  import opened Arith
  import opened Geometric
  import opened Arena
  import opened BigNary

  /** Nodes of the row that are left when parent i is served. */
  function Rest(n: nat, len: nat, row: nat, i: nat): nat
    requires i <= len
  {
    if i == 0 then row
    else
      var rest := Rest(n, len, row, i - 1);
      var q := Quota(n, len, i - 1, rest);
      if q <= rest then rest - q else 0
  }

  /** Children of parent i. */
  function Kids(n: nat, len: nat, row: nat, i: nat): nat
    requires i < len
  {
    Quota(n, len, i, Rest(n, len, row, i))
  }

  /** No parent has two children more than another. */
  ghost predicate EvenRow(n: nat, len: nat, row: nat) {
    forall i: nat, j: nat :: i < len && j < len ==> Kids(n, len, row, i) <= Kids(n, len, row, j) + 1
  }

  // ----- the two facts that all else is proved from

  lemma {:induction false} RestNext(n: nat, len: nat, row: nat, i: nat)
    requires i < len
    ensures Kids(n, len, row, i) <= n && Kids(n, len, row, i) <= Rest(n, len, row, i)
    ensures Rest(n, len, row, i + 1) == Rest(n, len, row, i) - Kids(n, len, row, i)
  {
    QuotaAtMostRest(n, len, i, Rest(n, len, row, i));
  }

  lemma {:induction false} QuotaGE(n: nat, len: nat, i: nat, rest: nat, m: nat)
    requires i < len && m <= n
    ensures Quota(n, len, i, rest) >= m <==> rest * (i + 1) >= len * m
  {
    var x := rest * (i + 1);
    var q := x / len;
    DivBounds(x, len);
    if q >= m {
      MulMonotone(len, m, q);
    } else {
      MulMonotone(len, q + 1, m);
      Distribute(len, q, 1);
    }
  }

  /** Parent i gets at least m children if and only if its share of the rest is that large. */
  lemma {:induction false} KidsGE(n: nat, len: nat, row: nat, i: nat, m: nat)
    requires i < len && m <= n
    ensures Kids(n, len, row, i) >= m <==> Rest(n, len, row, i) * (i + 1) >= len * m
  {
    QuotaGE(n, len, i, Rest(n, len, row, i), m);
  }

  /** A row that the parents can take is placed completely. */
  lemma {:induction false} RestBound(n: nat, len: nat, row: nat, i: nat)
    requires i <= len && row <= len * n
    ensures Rest(n, len, row, i) <= (len - i) * n
  {
    if i > 0 {
      RestBound(n, len, row, i - 1);
      RestNext(n, len, row, i - 1);
      QuotaLast(n, len, i - 1, Rest(n, len, row, i - 1));
    }
  }

  // ----- bounds that evenness puts on the rest

  /** Every parent has between lo and hi children. */
  ghost predicate Between(n: nat, len: nat, row: nat, lo: nat, hi: nat) {
    forall i: nat :: i < len ==> lo <= Kids(n, len, row, i) <= hi
  }

  lemma {:induction false} OneMore(lo: nat, hi: nat, k: nat, rest: nat, q: nat)
    requires lo <= q <= hi && lo * k <= rest - q <= hi * k
    ensures lo * (k + 1) <= rest <= hi * (k + 1)
  {
    Distribute(lo, k, 1);
    Distribute(hi, k, 1);
  }

  lemma {:induction false} RestBetween(n: nat, len: nat, row: nat, lo: nat, hi: nat, i: nat)
    requires i <= len && row <= len * n && Between(n, len, row, lo, hi)
    ensures lo * (len - i) <= Rest(n, len, row, i) <= hi * (len - i)
    decreases len - i
  {
    hide Rest, Kids;
    if i == len {
      RestBound(n, len, row, len);
    } else {
      assert lo <= Kids(n, len, row, i) <= hi;
      hide Between;
      RestBetween(n, len, row, lo, hi, i + 1);
      RestNext(n, len, row, i);
      OneMore(lo, hi, len - (i + 1), Rest(n, len, row, i), Kids(n, len, row, i));
    }
  }

  lemma {:induction false} PlacedBetween(n: nat, len: nat, row: nat, lo: nat, hi: nat, i: nat)
    requires i <= len && Between(n, len, row, lo, hi)
    ensures lo * i <= row - Rest(n, len, row, i) <= hi * i
  {
    if i > 0 {
      assert lo <= Kids(n, len, row, i - 1) <= hi;
      PlacedBetween(n, len, row, lo, hi, i - 1);
      RestNext(n, len, row, i - 1);
      hide Rest, Kids, Between;
      Distribute(lo, i - 1, 1);
      Distribute(hi, i - 1, 1);
    }
  }

  /** The row is what parent i has and what the others have. */
  lemma {:induction false} RowBetween(n: nat, len: nat, row: nat, lo: nat, hi: nat, i: nat)
    requires i < len && row <= len * n && Between(n, len, row, lo, hi)
    ensures lo * (len - 1) + Kids(n, len, row, i) <= row <= hi * (len - 1) + Kids(n, len, row, i)
  {
    hide Rest, Kids, Between;
    PlacedBetween(n, len, row, lo, hi, i);
    RestBetween(n, len, row, lo, hi, i + 1);
    RestNext(n, len, row, i);
    Distribute(lo, i, len - i - 1);
    Distribute(hi, i, len - i - 1);
  }

  lemma {:induction false} FirstKids(n: nat, len: nat, row: nat, a: nat)
    requires len > 0 && a < n && len * a <= row < len * (a + 1)
    ensures Kids(n, len, row, 0) == a
  {
    KidsGE(n, len, row, 0, a);
    KidsGE(n, len, row, 0, a + 1);
  }

  /** In an even row every parent has the quotient of the row or one more; no one has more if it divides the row. */
  lemma {:induction false} EvenBetween(n: nat, len: nat, row: nat, a: nat)
    requires len > 0 && a < n && len * a <= row < len * (a + 1) && row <= len * n && EvenRow(n, len, row)
    ensures Between(n, len, row, a, a + 1)
    ensures row == len * a ==> Between(n, len, row, a, a)
  {
    FirstKids(n, len, row, a);
    hide Kids;
    forall i: nat | i < len ensures a <= Kids(n, len, row, i) <= a + 1 {
      assert Kids(n, len, row, i) <= Kids(n, len, row, 0) + 1;
      if Kids(n, len, row, i) < a {
        assert Between(n, len, row, 0, a) by {
          assert forall j: nat :: j < len ==> Kids(n, len, row, j) <= Kids(n, len, row, i) + 1;
        }
        RowBetween(n, len, row, 0, a, i);
        Distribute(a, len - 1, 1);
      }
    }
    if row == len * a {
      forall i: nat | i < len ensures Kids(n, len, row, i) <= a {
        RowBetween(n, len, row, a, a + 1, i);
        Distribute(a, len - 1, 1);
      }
    }
  }

  lemma {:induction false} BetweenIsEven(n: nat, len: nat, row: nat, lo: nat)
    requires Between(n, len, row, lo, lo + 1)
    ensures EvenRow(n, len, row)
  {
    hide Kids;
  }

  // ----- a short row: fewer nodes than parents

  /** The least c with row * c >= len. */
  ghost predicate IsReach(len: nat, row: nat, c: nat) {
    c > 0 && row * c >= len && row * (c - 1) < len
  }

  lemma {:induction false} BeforeReach(n: nat, len: nat, row: nat, c: nat, i: nat)
    requires n >= 1 && 0 < row < len && IsReach(len, row, c) && i < c && i < len
    ensures Rest(n, len, row, i) == row
  {
    if i > 0 {
      BeforeReach(n, len, row, c, i - 1);
      RestNext(n, len, row, i - 1);
      KidsGE(n, len, row, i - 1, 1);
      MulMonotone(row, i, c - 1);
    }
  }

  /** The product of the first run of ones: it rises to the middle and falls after it. */
  lemma {:induction false} RunProduct(row: nat, c: nat, t: nat)
    requires t <= row
    ensures (row - t) * (c + t) == row * c + t * (row - c - t)
    ensures 4 * ((row - t) * (c + t)) <= (row + c) * (row + c)
  {
    var x, y := row - t, c + t;
    assert x * y == row * c + row * t - t * c - t * t;
    assert (x + y) * (x + y) - 4 * (x * y) == (x - y) * (x - y);
    Square(x - y);
  }

  lemma {:induction false} Square(x: int)
    ensures x * x >= 0
  {
  }

  lemma {:induction false} RunAbove(row: nat, c: nat, t: nat)
    requires c + t <= row
    ensures (row - t) * (c + t) >= row * c
  {
    RunProduct(row, c, t);
    MulMonotone(t, 0, row - c - t);
  }

  /** As long as nobody gets two, each parent from c - 1 on gets one until the middle of the run. */
  lemma {:induction false} FirstRun(n: nat, len: nat, row: nat, c: nat, t: nat)
    requires n >= 1 && 0 < row < len && IsReach(len, row, c) && c + t <= row && Between(n, len, row, 0, 1)
    ensures c - 1 + t < len && Rest(n, len, row, c - 1 + t) == row - t
    ensures (row - t) * (c + t) >= len
  {
    hide Rest, Kids;
    RunAbove(row, c, t);
    if t == 0 {
      BeforeReach(n, len, row, c, c - 1);
    } else {
      FirstRun(n, len, row, c, t - 1);
      var i := c + t - 2;
      assert Kids(n, len, row, i) <= 1;
      hide Between, IsReach;
      KidsGE(n, len, row, i, 1);
      RestNext(n, len, row, i);
      assert Rest(n, len, row, i) * (i + 1) == (row - (t - 1)) * (c + (t - 1));
    }
  }

  /** A short even row is so short that its longest product stays below two parents' worth. */
  lemma {:induction false} ShortEvenIsFew(n: nat, len: nat, row: nat, c: nat)
    requires n >= 2 && 0 < row < len && IsReach(len, row, c) && c < row && Between(n, len, row, 0, 1)
    ensures (row + c) * (row + c) < 8 * len
  {
    var t := (row - c) / 2;
    FirstRun(n, len, row, c, t);
    KidsGE(n, len, row, c - 1 + t, 2);
    assert Kids(n, len, row, c - 1 + t) <= 1;
    hide Rest, Kids, Between;
    assert (row - t) * (c + t) < len * 2;
    MiddleProduct(row - t, c + t, len);
  }

  lemma {:induction false} MiddleProduct(x: nat, y: nat, len: nat)
    requires x * y < len * 2 && y <= x <= y + 1
    ensures (x + y) * (x + y) < 8 * len
  {
    if x == y {
      assert (x + y) * (x + y) == 4 * (x * y);
    } else {
      assert (x + y) * (x + y) == 4 * (x * y) + 1;
    }
  }

  /** Where a short row stands at parent i: waiting for the first one, in the first run, or past it. */
  ghost predicate ShortState(len: nat, row: nat, c: nat, i: nat, rest: nat) {
    || (i < c && rest == row)
    || (c <= i + 1 && rest == row - (i + 1 - c) && (row + c) * (row + c) < 8 * len)
    || (rest <= i + 1 && rest * (i + 1) < 2 * len)
  }

  lemma {:induction false} ShortProduct(len: nat, row: nat, c: nat, i: nat, rest: nat)
    requires 0 < row < len && IsReach(len, row, c) && ShortState(len, row, c, i, rest) && rest <= row
    ensures rest * (i + 1) < 2 * len
  {
    if i < c && rest == row {
      MulMonotone(row, i, c - 1);
      Distribute(row, i, 1);
    } else if c <= i + 1 && rest == row - (i + 1 - c) && (row + c) * (row + c) < 8 * len {
      RunProduct(row, c, i + 1 - c);
    }
  }

  /** A parent in one of the three places gets one child or none, and the next is in one of them again. */
  lemma {:induction false} ShortStep(len: nat, row: nat, c: nat, i: nat, rest: nat, q: nat)
    requires 0 < row < len && IsReach(len, row, c) && rest <= row && q <= 1 && q <= rest
    requires row <= c || (row + c) * (row + c) < 8 * len
    requires ShortState(len, row, c, i, rest) && (q >= 1 <==> rest * (i + 1) >= len)
    ensures ShortState(len, row, c, i + 1, rest - q)
  {
    if i + 1 < c && rest == row {
      MulMonotone(row, i + 1, c - 1);
    } else if rest <= i + 1 {
      ShortProduct(len, row, c, i, rest);
      PastRun(len, i, rest, q);
    } else {
      InRun(len, row, c, i, rest);
    }
  }

  lemma {:induction false} InRun(len: nat, row: nat, c: nat, i: nat, rest: nat)
    requires c <= i + 1 && row * c >= len && rest == row - (i + 1 - c) && rest > i + 1
    ensures rest * (i + 1) >= len
  {
    var t := i + 1 - c;
    RunProduct(row, c, t);
    MulMonotone(t, 0, row - c - t);
  }

  lemma {:induction false} PastRun(len: nat, i: nat, rest: nat, q: nat)
    requires rest <= i + 1 && rest * (i + 1) < 2 * len && rest < len && q <= 1 && q <= rest
    requires q >= 1 <==> rest * (i + 1) >= len
    ensures rest - q <= i + 2 && (rest - q) * (i + 2) < 2 * len
  {
    Distribute(rest, i + 1, 1);
    if q == 1 {
      assert (rest - 1) * (i + 2) == rest * (i + 1) + rest - i - 2;
    }
  }

  lemma {:induction false} ShortRest(n: nat, len: nat, row: nat, c: nat, i: nat)
    requires n >= 2 && 0 < row < len && IsReach(len, row, c) && i < len
    requires row <= c || (row + c) * (row + c) < 8 * len
    ensures Rest(n, len, row, i) <= row && ShortState(len, row, c, i, Rest(n, len, row, i))
    ensures Kids(n, len, row, i) <= 1
  {
    if i > 0 {
      ShortRest(n, len, row, c, i - 1);
      RestNext(n, len, row, i - 1);
      KidsGE(n, len, row, i - 1, 1);
      hide Rest, Kids;
      ShortStep(len, row, c, i - 1, Rest(n, len, row, i - 1), Kids(n, len, row, i - 1));
    }
    ShortProduct(len, row, c, i, Rest(n, len, row, i));
    KidsGE(n, len, row, i, 2);
  }

  /** A short row is even if and only if it is this short. */
  lemma {:induction false} ShortIff(n: nat, len: nat, row: nat, c: nat)
    requires n >= 2 && 0 < row < len && IsReach(len, row, c)
    ensures EvenRow(n, len, row) <==> row <= c || (row + c) * (row + c) < 8 * len
  {
    hide Kids, IsReach;
    if EvenRow(n, len, row) && c < row {
      EvenBetween(n, len, row, 0);
      ShortEvenIsFew(n, len, row, c);
    }
    if row <= c || (row + c) * (row + c) < 8 * len {
      forall i: nat | i < len ensures 0 <= Kids(n, len, row, i) <= 1 {
        ShortRest(n, len, row, c, i);
      }
      BetweenIsEven(n, len, row, 0);
    }
  }

  // ----- an almost full row

  /** A parent gets n children if the nodes missing for a full row are few enough. */
  lemma {:induction false} FullKids(n: nat, len: nat, row: nat, i: nat, d: nat)
    requires i < len && Rest(n, len, row, i) >= n * (len - i) - d && n * (i * (len - i - 1)) >= d * (i + 1)
    ensures Kids(n, len, row, i) == n
  {
    KidsGE(n, len, row, i, n);
    RestNext(n, len, row, i);
    hide Rest, Kids;
    FullProductBy(n, len, i, d, Rest(n, len, row, i));
  }

  lemma {:induction false} FullProductBy(n: nat, len: nat, i: nat, d: nat, rest: nat)
    requires i < len && rest >= n * (len - i) - d && n * (i * (len - i - 1)) >= d * (i + 1)
    ensures rest * (i + 1) >= len * n
  {
    MulMonotone(i + 1, n * (len - i) - d, rest);
    assert (i + 1) * (n * (len - i) - d) == n * ((len - i) * (i + 1)) - d * (i + 1);
    assert (len - i) * (i + 1) == len + i * (len - i - 1);
    Distribute(n, len, i * (len - i - 1));
  }

  /** With d nodes missing, a parent that is not among the first and not among the last d is full. */
  lemma {:induction false} InnerIsFull(n: nat, len: nat, i: nat, d: nat)
    requires n >= 2 && 1 <= i && i + d < len && d <= 3
    ensures n * (i * (len - i - 1)) >= d * (i + 1)
  {
    var y := len - i - 1;
    MulMonotone(i, d, y);
    MulMonotone(i * y, 2, n);
    Distribute(d, i, 1);
    MulMonotone(d, 1, i);
  }

  lemma {:induction false} StaysFull(n: nat, len: nat, row: nat, d: nat, i: nat)
    requires n >= 2 && d <= 2 && 1 <= i < len && i + d <= len && Rest(n, len, row, 1) == n * (len - 1) - d
    ensures Rest(n, len, row, i) == n * (len - i) - d
    ensures forall j: nat :: 1 <= j < i ==> Kids(n, len, row, j) == n
  {
    if i > 1 {
      hide Rest, Kids;
      StaysFull(n, len, row, d, i - 1);
      InnerIsFull(n, len, i - 1, d);
      FullKids(n, len, row, i - 1, d);
      RestNext(n, len, row, i - 1);
      Distribute(n, len - i, 1);
    }
  }

  lemma {:induction false} AlmostFullProducts(n: nat, len: nat, row: nat, first: nat, e: nat)
    requires n >= 2 && len >= 2 && len * n - 2 <= row <= len * n
    requires first == (if row == len * n then n else n - 1) && e == (if row == len * n then 0 else len * n - row - 1)
    ensures len * first <= row < len * (first + 1) && row - first == n * (len - 1) - e
  {
    Distribute(len, n - 1, 1);
    Distribute(len, n, 1);
    Distribute(n, len - 1, 1);
  }

  /** A row that lacks at most two nodes is even: the first parent lacks one, and the last. */
  lemma {:induction false} AlmostFullIsEven(n: nat, len: nat, row: nat)
    requires n >= 2 && len >= 2 && len * n - 2 <= row <= len * n
    ensures EvenRow(n, len, row)
  {
    hide Rest, Kids, EvenRow;
    var first := if row == len * n then n else n - 1;
    var e := if row == len * n then 0 else len * n - row - 1;
    AlmostFullProducts(n, len, row, first, e);
    FirstRest(n, len, row);
    Fixed(n, len, row, 0, row, first);
    StaysFull(n, len, row, e, len - 1);
    LastKids(n, len, row);
    forall i: nat | i < len ensures n - 1 <= Kids(n, len, row, i) <= n {
      assert i == 0 || i == len - 1 || Kids(n, len, row, i) == n;
    }
    BetweenIsEven(n, len, row, n - 1);
  }

  /** The last parent takes what is left, if it can. */
  lemma {:induction false} LastKids(n: nat, len: nat, row: nat)
    requires len > 0 && Rest(n, len, row, len - 1) <= n
    ensures Kids(n, len, row, len - 1) == Rest(n, len, row, len - 1)
  {
    var r := Rest(n, len, row, len - 1);
    KidsGE(n, len, row, len - 1, r);
    RestNext(n, len, row, len - 1);
  }

  /** In a row of pairs, three nodes may be missing: of the first parent and of the last two. */
  lemma {:induction false} ThreeMissingOfPairs(len: nat, row: nat)
    requires len >= 4 && row == 2 * len - 3
    ensures EvenRow(2, len, row)
  {
    hide Rest, Kids, EvenRow;
    FirstRest(2, len, row);
    Fixed(2, len, row, 0, row, 1);
    StaysFull(2, len, row, 2, len - 2);
    Fixed(2, len, row, len - 2, 2, 1);
    LastKids(2, len, row);
    forall i: nat | i < len ensures 1 <= Kids(2, len, row, i) <= 2 {
      assert i == 0 || i >= len - 2 || Kids(2, len, row, i) == 2;
    }
    BetweenIsEven(2, len, row, 1);
  }

  /** In an even row of n and n - 1, the nodes missing at the end are those missing after the first parent. */
  lemma {:induction false} MissingBack(n: nat, len: nat, row: nat, b: nat, top: nat, i: nat)
    requires n >= 2 && 1 <= b <= 2 && 1 <= i <= top && top + b < len && Between(n, len, row, n - 1, n)
    requires Rest(n, len, row, top) >= n * (len - top) - b
    ensures Rest(n, len, row, i) >= n * (len - i) - b
    decreases top - i
  {
    if i < top {
      MissingBack(n, len, row, b, top, i + 1);
      RestNext(n, len, row, i);
      assert n - 1 <= Kids(n, len, row, i) <= n;
      hide Rest, Kids, Between;
      Distribute(n, len - i - 1, 1);
      InnerIsFull(n, len, i, b + 1);
      FullKids(n, len, row, i, b + 1);
    }
  }

  /** The first parent lacks one node at most. */
  lemma {:induction false} MissingInAll(n: nat, len: nat, row: nat, b: nat, top: nat)
    requires n >= 2 && 1 <= b <= 2 && 1 <= top && top + b < len && Between(n, len, row, n - 1, n)
    requires Rest(n, len, row, top) >= n * (len - top) - b
    ensures row >= len * n - b - 1
  {
    MissingBack(n, len, row, b, top, 1);
    RestNext(n, len, row, 0);
    assert n - 1 <= Kids(n, len, row, 0);
    assert Rest(n, len, row, 0) == row;
    hide Rest, Kids, Between;
    Distribute(n, len - 1, 1);
  }

  lemma {:induction false} SecondLast(n: nat, len: nat, r: nat)
    requires n >= 3 && len >= 4
    ensures r == 2 * n - 2 ==> r * (len - 1) >= len * n
  {
    MulMonotone(n - 2, 4, len);
    assert (2 * n - 2) * (len - 1) == len * n + (n - 2) * len - 2 * n + 2;
  }

  /** An even row of n and n - 1 lacks at most two nodes. */
  lemma {:induction false} EvenIsAlmostFull(n: nat, len: nat, row: nat)
    requires n >= 3 && len >= 4 && row <= len * n && Between(n, len, row, n - 1, n)
    ensures row >= len * n - 2
  {
    hide Rest, Kids, Between;
    RestBetween(n, len, row, n - 1, n, len - 2);
    RestBetween(n, len, row, n - 1, n, len - 1);
    RestNext(n, len, row, len - 2);
    KidsGE(n, len, row, len - 2, n);
    SecondLast(n, len, Rest(n, len, row, len - 2));
    MissingInAll(n, len, row, 1, len - 2);
  }

  /** An even row of pairs and ones lacks at most three nodes. */
  lemma {:induction false} EvenPairsAlmostFull(len: nat, row: nat)
    requires len >= 6 && row <= len * 2 && Between(2, len, row, 1, 2)
    ensures row >= len * 2 - 3
  {
    hide Rest, Kids, Between;
    RestBetween(2, len, row, 1, 2, len - 3);
    RestBetween(2, len, row, 1, 2, len - 2);
    RestNext(2, len, row, len - 3);
    KidsGE(2, len, row, len - 3, 2);
    MissingInAll(2, len, row, 2, len - 3);
  }

  // ----- rows in between are not even

  /** With three children or more for each and room for two more, the second parent gets too many. */
  lemma {:induction false} ThreeOrMoreIsUneven(n: nat, len: nat, row: nat, a: nat)
    requires a >= 3 && a + 2 <= n <= len && len * a <= row < len * (a + 1) && row <= len * n
    ensures !EvenRow(n, len, row)
  {
    if EvenRow(n, len, row) {
      EvenBetween(n, len, row, a);
      FirstKids(n, len, row, a);
      RestNext(n, len, row, 0);
      assert Rest(n, len, row, 0) == row;
      assert Kids(n, len, row, 1) <= a + 1;
      assert row == len * a ==> Kids(n, len, row, 1) <= a;
      KidsGE(n, len, row, 1, a + 2);
      KidsGE(n, len, row, 1, a + 1);
      hide Rest, Kids, Between, EvenRow;
      SecondTooMany(n, len, row, a);
      assert false;
    }
  }

  lemma {:induction false} SecondTooMany(n: nat, len: nat, row: nat, a: nat)
    requires a >= 3 && a + 2 <= n <= len && len * a <= row
    ensures (row - a) * 2 >= len * (a + 2) || (row == len * a && (row - a) * 2 >= len * (a + 1))
  {
    Distribute(len, a, 2);
    Distribute(len, a, 1);
    if a >= 4 {
      MulMonotone(len, 4, a);
      MulMonotone(a, a + 2, len);
    }
  }

  lemma {:induction false} TwoEachIsUneven(n: nat, len: nat, row: nat)
    requires 4 <= n <= len && len * 2 <= row < len * 3
    ensures !EvenRow(n, len, row)
  {
    if EvenRow(n, len, row) {
      MulMonotone(len, 3, n);
      EvenBetween(n, len, row, 2);
      FirstKids(n, len, row, 2);
      RestNext(n, len, row, 0);
      RestNext(n, len, row, 1);
      RestNext(n, len, row, 2);
      assert Rest(n, len, row, 0) == row;
      assert Kids(n, len, row, 1) <= 3;
      assert row == len * 2 ==> Kids(n, len, row, 1) <= 2;
      KidsGE(n, len, row, 1, 4);
      KidsGE(n, len, row, 1, 3);
      KidsGE(n, len, row, 2, 3);
      hide Rest, Kids;
      RestBetween(n, len, row, 2, 3, 3);
      assert false;
    }
  }

  lemma {:induction false} OneEachIsUneven(n: nat, len: nat, row: nat)
    requires 3 <= n <= len && len <= row < len * 2 && (len >= 6 || (len == 4 && row >= 7) || (len == 5 && row >= 8))
    ensures !EvenRow(n, len, row)
  {
    MulMonotone(len, 2, n);
    FirstKids(n, len, row, 1);
    if len >= 6 {
      NoLongOnes(n, len, row);
      if EvenRow(n, len, row) {
        EvenBetween(n, len, row, 1);
      }
    } else {
      FewParents(n, len, row);
    }
  }

  lemma {:induction false} FewParents(n: nat, len: nat, row: nat)
    requires n >= 3 && row < len * 2 && ((len == 4 && row >= 7) || (len == 5 && row >= 8)) && Kids(n, len, row, 0) == 1
    ensures Kids(n, len, row, 1) >= 3 || Kids(n, len, row, 2) >= 3
  {
    RestNext(n, len, row, 0);
    RestNext(n, len, row, 1);
    assert Rest(n, len, row, 0) == row;
    KidsGE(n, len, row, 1, 3);
    KidsGE(n, len, row, 1, 2);
    KidsGE(n, len, row, 2, 3);
    hide Rest, Kids;
  }

  lemma {:induction false} EndProducts(len: nat, r: nat)
    requires len >= 6 && 3 <= r
    ensures r * (len - 2) >= len * 2
    ensures r >= 5 || (r == 4 && len >= 8) ==> r * (len - 2) >= len * 3
    ensures len <= 7 && r >= 5 ==> r * (len - 3) >= len * 2
    ensures len <= 7 && r >= 6 ==> r * (len - 3) >= len * 3
  {
    MulMonotone(len - 2, if r >= 5 then 5 else if r == 4 then 4 else 3, r);
    MulMonotone(len - 3, if r >= 6 then 6 else if r == 5 then 5 else 0, r);
  }

  lemma {:induction false} EndQuotas(len: nat, r: nat, q: nat, q': nat)
    requires len >= 6 && 3 <= r <= 6 && 2 <= r - q <= 4 && 1 <= q'
    requires (q >= 2 <==> r * (len - 2) >= len * 2) && (q >= 3 <==> r * (len - 2) >= len * 3)
    requires (q' >= 2 <==> (r + q') * (len - 3) >= len * 2) && (q' >= 3 <==> (r + q') * (len - 3) >= len * 3)
    ensures q >= 3 || q' >= 3
  {
    EndProducts(len, r);
    EndProducts(len, r + q');
  }

  /** The last parents give it away: what is left for them cannot be shared as ones and twos. */
  lemma {:induction false} NoLongOnes(n: nat, len: nat, row: nat)
    requires n >= 3 && len >= 6 && row <= len * n
    ensures !Between(n, len, row, 1, 2)
  {
    if Between(n, len, row, 1, 2) {
      hide Rest, Kids;
      var r, q, q' := Rest(n, len, row, len - 3), Kids(n, len, row, len - 3), Kids(n, len, row, len - 4);
      assert q <= 2 && 1 <= q' <= 2;
      RestBetween(n, len, row, 1, 2, len - 3);
      RestBetween(n, len, row, 1, 2, len - 2);
      hide Between;
      RestNext(n, len, row, len - 3);
      RestNext(n, len, row, len - 4);
      KidsGE(n, len, row, len - 3, 2);
      KidsGE(n, len, row, len - 3, 3);
      KidsGE(n, len, row, len - 4, 2);
      KidsGE(n, len, row, len - 4, 3);
      EndQuotas(len, r, q, q');
    }
  }

  // ----- rows of up to five parents

  predicate ShortList(len: nat, row: nat) {
    len <= 3 || (len == 4 && 4 <= row <= 6) || (len == 5 && 5 <= row <= 7)
  }

  /** Parent i gets q of r nodes, which leaves r - q. */
  lemma {:induction false} Fixed(n: nat, len: nat, row: nat, i: nat, r: nat, q: nat)
    requires i < len && Rest(n, len, row, i) == r && q <= n && q <= r && len * q <= r * (i + 1) < len * (q + 1)
    ensures Kids(n, len, row, i) == q && Rest(n, len, row, i + 1) == r - q
  {
    KidsGE(n, len, row, i, q);
    RestNext(n, len, row, i);
    if q < n {
      KidsGE(n, len, row, i, q + 1);
    }
  }

  /** Five parents at most, each with one child or two. */
  lemma {:induction false} FewBetween(n: nat, len: nat, row: nat)
    requires 3 <= len <= 5
    requires forall i: nat :: i < 3 ==> 1 <= Kids(n, len, row, i) <= 2
    requires len >= 4 ==> 1 <= Kids(n, len, row, 3) <= 2
    requires len >= 5 ==> 1 <= Kids(n, len, row, 4) <= 2
    ensures EvenRow(n, len, row)
  {
    hide Kids, EvenRow;
    BetweenIsEven(n, len, row, 1);
  }

  lemma {:induction false} ThreeParents(n: nat, row: nat)
    requires 2 <= n <= 3 && 3 <= row <= 6
    ensures EvenRow(n, 3, row)
  {
    hide Rest, Kids, EvenRow;
    var first := if row == 6 then 2 else 1;
    var second := if row == 3 then 1 else 2;
    FirstRest(n, 3, row);
    Fixed(n, 3, row, 0, row, first);
    Fixed(n, 3, row, 1, row - first, second);
    Fixed(n, 3, row, 2, row - first - second, row - first - second);
    FewBetween(n, 3, row);
  }

  lemma {:induction false} FourParents(n: nat, row: nat)
    requires 2 <= n <= 4 && 4 <= row <= 6
    ensures EvenRow(n, 4, row)
  {
    hide Rest, Kids, EvenRow;
    var second := if row == 4 then 1 else 2;
    var third := if row == 6 then 2 else 1;
    FirstRest(n, 4, row);
    Fixed(n, 4, row, 0, row, 1);
    Fixed(n, 4, row, 1, row - 1, second);
    Fixed(n, 4, row, 2, row - 1 - second, third);
    Fixed(n, 4, row, 3, 1, 1);
    FewBetween(n, 4, row);
  }

  lemma {:induction false} FiveParents(n: nat, row: nat)
    requires 2 <= n <= 5 && 5 <= row <= 7
    ensures EvenRow(n, 5, row)
  {
    hide Rest, Kids, EvenRow;
    var second := if row == 5 then 1 else 2;
    var third := if row == 7 then 2 else 1;
    FirstRest(n, 5, row);
    Fixed(n, 5, row, 0, row, 1);
    Fixed(n, 5, row, 1, row - 1, second);
    Fixed(n, 5, row, 2, row - 1 - second, third);
    Fixed(n, 5, row, 3, 2, 1);
    Fixed(n, 5, row, 4, 1, 1);
    FewBetween(n, 5, row);
  }

  lemma {:induction false} FirstRest(n: nat, len: nat, row: nat)
    ensures Rest(n, len, row, 0) == row
  {
  }

  lemma {:induction false} ShortListIsEven(n: nat, len: nat, row: nat)
    requires 2 <= n <= len && len <= row <= len * n && row + 2 < len * n && ShortList(len, row)
    ensures EvenRow(n, len, row)
  {
    hide EvenRow;
    if len == 3 {
      ThreeParents(n, row);
    } else if len == 4 {
      FourParents(n, row);
    } else {
      FiveParents(n, row);
    }
  }

  // ----- exactly when a row is even

  /** How many parents it takes until the first one gets a node. */
  function Reach(len: nat, row: nat): nat
    requires row > 0
  {
    (len + row - 1) / row
  }

  lemma {:induction false} ReachIs(len: nat, row: nat)
    requires 0 < row < len
    ensures IsReach(len, row, Reach(len, row))
  {
    var c := Reach(len, row);
    DivBounds(len + row - 1, row);
    Distribute(row, c - 1, 1);
  }

  predicate FewNodes(len: nat, row: nat) {
    row < len && (row == 0 || row <= Reach(len, row) || (row + Reach(len, row)) * (row + Reach(len, row)) < 8 * len)
  }

  predicate AlmostFull(n: nat, len: nat, row: nat) {
    row + 2 >= len * n || (n == 2 && row + 3 >= len * n)
  }

  /** What a caller can compute from the branching factor, the number of parents and the length of the row. */
  predicate SpreadsEvenly(n: nat, len: nat, row: nat) {
    n == 1 || len == 1 || FewNodes(len, row) || AlmostFull(n, len, row) || ShortList(len, row)
  }

  lemma {:induction false} LongRow(n: nat, len: nat, row: nat)
    requires 2 <= n <= len && len >= 4 && len <= row <= len * n && EvenRow(n, len, row)
    ensures AlmostFull(n, len, row) || ShortList(len, row)
  {
    var a := row / len;
    DivBounds(row, len);
    Distribute(len, a, 1);
    if row < len * n {
      CancelLeft(len, 1, a);
      CancelLeft(len, a, n - 1);
      hide EvenRow;
      if a + 1 == n {
        EvenBetween(n, len, row, a);
        if n >= 3 {
          EvenIsAlmostFull(n, len, row);
        } else if len >= 6 {
          EvenPairsAlmostFull(len, row);
        }
      } else if a >= 3 {
        ThreeOrMoreIsUneven(n, len, row, a);
      } else if a == 2 {
        TwoEachIsUneven(n, len, row);
      } else if len >= 6 || (len == 4 && row >= 7) || (len == 5 && row >= 8) {
        OneEachIsUneven(n, len, row);
      }
    }
  }

  lemma {:induction false} EmptyRow(n: nat, len: nat, i: nat)
    requires i < len
    ensures Rest(n, len, 0, i) == 0 && Kids(n, len, 0, i) == 0
  {
    if i > 0 {
      EmptyRow(n, len, i - 1);
    }
  }

  /** The row is spread evenly if and only if it is short, almost full, or one of the short list. */
  lemma {:induction false} EvenIff(n: nat, len: nat, row: nat)
    requires n >= 1 && len >= 1 && (len == 1 || n <= len) && row <= len * n
    ensures EvenRow(n, len, row) <==> SpreadsEvenly(n, len, row)
  {
    if n == 1 {
      forall i: nat | i < len ensures 0 <= Kids(n, len, row, i) <= 1 {
        RestNext(n, len, row, i);
      }
      BetweenIsEven(n, len, row, 0);
    } else if len > 1 {
      hide EvenRow, Kids, Rest;
      if row == 0 {
        forall i: nat | i < len ensures 0 <= Kids(n, len, row, i) <= 1 {
          EmptyRow(n, len, i);
        }
        BetweenIsEven(n, len, row, 0);
      } else if row < len {
        ReachIs(len, row);
        ShortIff(n, len, row, Reach(len, row));
        if len >= 4 {
          NotAlmostFull(n, len, row);
        }
      } else if row + 2 >= len * n {
        AlmostFullIsEven(n, len, row);
      } else if ShortList(len, row) {
        ShortListIsEven(n, len, row);
      } else if AlmostFull(n, len, row) {
        ThreeMissingOfPairs(len, row);
      } else if EvenRow(n, len, row) {
        LongRow(n, len, row);
      }
    }
  }

  lemma {:induction false} NotAlmostFull(n: nat, len: nat, row: nat)
    requires n >= 2 && len >= 4 && row < len
    ensures !AlmostFull(n, len, row)
  {
    MulMonotone(len, 2, n);
    MulMonotone(len, if n >= 3 then 3 else 2, n);
  }

  // ----- the generated tree

  lemma {:induction false} RestIsMissing(n: nat, nodes: nat, k: nat, i: nat)
    requires Geo(n, k + 1) <= nodes && i <= Pow(n, k)
    ensures Missing(n, nodes, k, i) == Rest(n, Pow(n, k), nodes - Geo(n, k + 1), i)
  {
    if i > 0 {
      RestIsMissing(n, nodes, k, i - 1);
    }
    hide Quota, Geo, Pow;
  }

  /** The last row has nodes - Geo(n, k + 1) nodes, and level k has their parents. */
  ghost predicate IsLastRow(n: nat, nodes: nat, k: nat) {
    Geo(n, k + 1) < nodes <= Geo(n, k + 2)
  }

  /** In a generated tree the i-th node above the last row has Kids children. */
  lemma {:induction false} ParentsOfLastRow(t: seq<Node>, n: nat, nodes: nat, k: nat, i: nat)
    requires n >= 1 && |t| == nodes && Distributed(t, n, nodes, nodes) && IsLastRow(n, nodes, k) && i < Pow(n, k)
    ensures Geo(n, k) + i < nodes
    ensures |t[Geo(n, k) + i].children| == Kids(n, Pow(n, k), nodes - Geo(n, k + 1), i)
  {
    LevelEnd(n, k);
    var p := Geo(n, k) + i;
    assert OnLevel(n, k, p);
    assert HasItsChildren(t, n, nodes, k, p);
    RestIsMissing(n, nodes, k, i);
    hide Quota, Distributed, Rest, Missing;
  }

  /** The parents of the last row differ by one child at most. */
  ghost predicate EvenLastRow(t: seq<Node>, n: nat, k: nat)
    requires Geo(n, k) + Pow(n, k) <= |t|
  {
    forall i: nat, j: nat :: i < Pow(n, k) && j < Pow(n, k) ==>
      ChildCount(t, Geo(n, k), i) <= ChildCount(t, Geo(n, k), j) + 1
  }

  function ChildCount(t: seq<Node>, first: nat, i: nat): nat
    requires first + i < |t|
  {
    |t[first + i].children|
  }

  lemma {:induction false} RowFits(n: nat, nodes: nat, k: nat)
    requires n >= 1 && IsLastRow(n, nodes, k)
    ensures nodes - Geo(n, k + 1) <= Pow(n, k) * n
    ensures Pow(n, k) >= 1 && (Pow(n, k) == 1 || n <= Pow(n, k))
    ensures Geo(n, k) + Pow(n, k) <= nodes
  {
    PowPositive(n, k);
    LevelEnd(n, k + 1);
    LevelEnd(n, k);
    if k > 0 {
      PowPositive(n, k - 1);
      MulMonotone(n, 1, Pow(n, k - 1));
    }
  }

  /** The last row of a generated tree is spread evenly if and only if the numbers say so. */
  lemma {:induction false} LastRowEvenIff(t: seq<Node>, n: nat, nodes: nat, k: nat)
    requires n >= 1 && |t| == nodes && Distributed(t, n, nodes, nodes) && IsLastRow(n, nodes, k)
    ensures Geo(n, k) + Pow(n, k) <= nodes
    ensures EvenLastRow(t, n, k) <==> SpreadsEvenly(n, Pow(n, k), nodes - Geo(n, k + 1))
  {
    hide Kids, SpreadsEvenly, Distributed, Geo, Pow;
    var len, row := Pow(n, k), nodes - Geo(n, k + 1);
    RowFits(n, nodes, k);
    EvenIff(n, len, row);
    forall i: nat | i < len
      ensures ChildCount(t, Geo(n, k), i) == Kids(n, len, row, i)
    {
      ParentsOfLastRow(t, n, nodes, k, i);
    }
    hide ChildCount;
  }

  /** Fifteen nodes with a branching factor of 4: the four parents have 2, 4, 3 and 1 children. */
  lemma {:induction false} FifteenNodes(t: seq<Node>)
    requires |t| == 15 && Distributed(t, 4, 15, 15)
    ensures |t[1].children| == 2 && |t[2].children| == 4 && |t[3].children| == 3 && |t[4].children| == 1
  {
    assert Pow(4, 0) == 1 && Pow(4, 1) == 4 && Pow(4, 2) == 16;
    assert Geo(4, 1) == 1 && Geo(4, 2) == 5 && Geo(4, 3) == 21;
    hide Distributed;
    ParentsOfLastRow(t, 4, 15, 1, 0);
    ParentsOfLastRow(t, 4, 15, 1, 1);
    ParentsOfLastRow(t, 4, 15, 1, 2);
    ParentsOfLastRow(t, 4, 15, 1, 3);
    assert Rest(4, 4, 10, 0) == 10;
    hide Kids, Rest, Geo, Pow;
    Fixed(4, 4, 10, 0, 10, 2);
    Fixed(4, 4, 10, 1, 8, 4);
    Fixed(4, 4, 10, 2, 4, 3);
    Fixed(4, 4, 10, 3, 1, 1);
  }
}

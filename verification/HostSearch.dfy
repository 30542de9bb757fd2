/**
 The circular search for the host of a new child: walk the roster from a start
 position, skip entries that are not eligible, and prefer a host other than the
 parent's.
 */
module HostSearch {
  import opened Arena

  /** Steps from `start` to `e` when walking forward around `n` entries. */
  function Distance(n: nat, start: nat, e: nat): (d: nat)
    requires start < n && e < n
    ensures d < n
  {
    if e >= start then e - start else e + n - start
  }

  /** With `useAll`, an entry that is already in the tree may not be taken again. */
  predicate Eligible(used: seq<bool>, useAll: bool, e: nat)
    requires e < |used|
  {
    !useAll || !used[e]
  }

  /** `e` may be taken and is on another host than the parent. */
  predicate Preferred<P>(ro: seq<Server<P>>, used: seq<bool>, useAll: bool, parentHost: string, e: nat)
    requires |used| == |ro| && e < |ro|
  {
    Eligible(used, useAll, e) && ro[e].host != parentHost
  }

  /**
   `k` is the first preferred entry from `start` on, or, when there is no
   preferred entry, the first eligible one.
   */
  ghost predicate IsPick<P>(ro: seq<Server<P>>, used: seq<bool>, useAll: bool, start: nat, parentHost: string, k: nat)
    requires |used| == |ro| && start < |ro|
  {
    && k < |ro|
    && Eligible(used, useAll, k)
    && (forall e: nat :: e < |ro| && Preferred(ro, used, useAll, parentHost, e) ==>
         ro[k].host != parentHost && Distance(|ro|, start, k) <= Distance(|ro|, start, e))
    && (ro[k].host == parentHost ==>
         forall e: nat :: e < |ro| && Eligible(used, useAll, e) ==>
           Distance(|ro|, start, k) <= Distance(|ro|, start, e))
  }

  /** The rule leaves no choice. */
  lemma {:induction false} PickIsUnique<P>(ro: seq<Server<P>>, used: seq<bool>, useAll: bool, start: nat,
                                           parentHost: string, k: nat, l: nat)
    requires |used| == |ro| && start < |ro|
    requires IsPick(ro, used, useAll, start, parentHost, k)
    requires IsPick(ro, used, useAll, start, parentHost, l)
    ensures k == l
  {
    assert Preferred(ro, used, useAll, parentHost, k) <==> ro[k].host != parentHost;
    assert Preferred(ro, used, useAll, parentHost, l) <==> ro[l].host != parentHost;
    assert Distance(|ro|, start, k) == Distance(|ro|, start, l);
  }

  /** A child is on its parent's host only if every eligible entry is. */
  lemma {:induction false} SameHostOnlyIfForced<P>(ro: seq<Server<P>>, used: seq<bool>, useAll: bool, start: nat,
                                                   parentHost: string, k: nat)
    requires |used| == |ro| && start < |ro|
    requires IsPick(ro, used, useAll, start, parentHost, k)
    ensures ro[k].host == parentHost <==>
            forall e: nat :: e < |ro| && Eligible(used, useAll, e) ==> ro[e].host == parentHost
  {
    forall e: nat | e < |ro| && Eligible(used, useAll, e) && ro[e].host != parentHost
      ensures ro[k].host != parentHost
    {
      assert Preferred(ro, used, useAll, parentHost, e);
    }
  }

  /** The entries passed in the first `d` steps are not preferred. */
  ghost predicate Passed<P>(ro: seq<Server<P>>, used: seq<bool>, useAll: bool, start: nat, parentHost: string, d: nat)
    requires |used| == |ro| && start < |ro|
  {
    forall e: nat :: e < |ro| && Distance(|ro|, start, e) < d ==> !Preferred(ro, used, useAll, parentHost, e)
  }

  /** The entries passed in the first `d` steps are not even eligible. */
  ghost predicate Barred(used: seq<bool>, useAll: bool, start: nat, d: nat)
    requires start < |used|
  {
    forall e: nat :: e < |used| && Distance(|used|, start, e) < d ==> !Eligible(used, useAll, e)
  }

  /** The position after `i`, around `n` entries. */
  function Next(n: nat, i: nat): (r: nat)
    requires i < n
    ensures r == if i + 1 == n then 0 else i + 1
  {
    (i + 1) % n
  }

  lemma {:induction false} DistanceNext(n: nat, start: nat, i: nat)
    requires start < n && i < n
    ensures Distance(n, start, Next(n, i)) == if Next(n, i) == start then 0 else Distance(n, start, i) + 1
    ensures Next(n, i) == start <==> Distance(n, start, i) == n - 1
  {
  }

  lemma {:induction false} PassOne<P>(ro: seq<Server<P>>, used: seq<bool>, useAll: bool, start: nat,
                                      parentHost: string, k: nat)
    requires |used| == |ro| && start < |ro| && k < |ro|
    requires Passed(ro, used, useAll, start, parentHost, Distance(|ro|, start, k))
    requires !Preferred(ro, used, useAll, parentHost, k)
    ensures Passed(ro, used, useAll, start, parentHost, Distance(|ro|, start, k) + 1)
  {
    forall e: nat | e < |ro| && Distance(|ro|, start, e) == Distance(|ro|, start, k)
      ensures e == k
    {
    }
  }

  lemma {:induction false} BarOne(used: seq<bool>, useAll: bool, start: nat, k: nat)
    requires start < |used| && k < |used|
    requires Barred(used, useAll, start, Distance(|used|, start, k))
    requires !Eligible(used, useAll, k)
    ensures Barred(used, useAll, start, Distance(|used|, start, k) + 1)
  {
    forall e: nat | e < |used| && Distance(|used|, start, e) == Distance(|used|, start, k)
      ensures e == k
    {
    }
  }

  /** Where the walk stands between two steps of the loop. */
  ghost predicate SearchInv<P>(ro: seq<Server<P>>, used: seq<bool>, useAll: bool, start: nat, parentHost: string,
                               roIndex: nat, childHost: string, notSameHost: bool)
    requires |used| == |ro| && start < |ro|
  {
    && roIndex < |ro|
    && var d := Distance(|ro|, start, roIndex);
    if notSameHost then
      && Passed(ro, used, useAll, start, parentHost, d)
      && (Eligible(used, useAll, roIndex) || d == 0 ==> childHost == ro[roIndex].host)
    else
      && Passed(ro, used, useAll, start, parentHost, |ro|)
      && Barred(used, useAll, start, d)
  }

  lemma {:induction false} BarredAll(used: seq<bool>, useAll: bool, start: nat, e: nat)
    requires start < |used| && e < |used| && Eligible(used, useAll, e)
    ensures !Barred(used, useAll, start, |used|)
  {
  }

  lemma {:induction false} SearchStops<P>(ro: seq<Server<P>>, used: seq<bool>, useAll: bool, start: nat,
                                          parentHost: string, k: nat, childHost: string, notSameHost: bool)
    requires |used| == |ro| && start < |ro|
    requires SearchInv(ro, used, useAll, start, parentHost, k, childHost, notSameHost)
    requires !(notSameHost && childHost == parentHost && |ro| > 1) && !(useAll && used[k])
    ensures IsPick(ro, used, useAll, start, parentHost, k)
  {
    assert Preferred(ro, used, useAll, parentHost, k) <==> ro[k].host != parentHost;
  }

  lemma {:induction false} SearchGivesUp<P>(ro: seq<Server<P>>, used: seq<bool>, useAll: bool, start: nat,
                                            parentHost: string)
    requires |used| == |ro| && start < |ro|
    requires Passed(ro, used, useAll, start, parentHost, |ro|) && Eligible(used, useAll, start)
    ensures IsPick(ro, used, useAll, start, parentHost, start)
  {
  }

  /**
   The search loop. It stops within two rounds: the second round is entered only
   if the start entry is used up and every eligible entry is on the parent's host.
   */
  method PickHost<P>(ro: seq<Server<P>>, used: array<bool>, useAll: bool, start: nat, parentHost: string)
    returns (roIndex: nat)
    requires used.Length == |ro| && start < |ro|
    requires useAll ==> exists e: nat :: e < used.Length && !used[e]
    ensures IsPick(ro, used[..], useAll, start, parentHost, roIndex)
  {
    var ilLen := |ro|;
    ghost var u := used[..];
    ghost var free: nat := start;
    if useAll {
      free :| free < ilLen && !used[free];
    }
    roIndex := start;
    var childHost := ro[roIndex].host;
    var roIndexFirst := roIndex;
    var notSameHost := true;
    while (notSameHost && childHost == parentHost && ilLen > 1) || (useAll && used[roIndex])
      invariant SearchInv(ro, u, useAll, start, parentHost, roIndex, childHost, notSameHost)
      decreases notSameHost, ilLen - Distance(ilLen, start, roIndex)
    {
      if notSameHost {
        PassOne(ro, u, useAll, start, parentHost, roIndex);
      } else {
        BarOne(u, useAll, start, roIndex);
        BarredAll(u, useAll, start, free);
      }
      DistanceNext(ilLen, start, roIndex);
      roIndex := Next(ilLen, roIndex);
      if useAll && used[roIndex] {
        if roIndex == roIndexFirst {
          notSameHost := false;
        }
        continue;
      }
      if roIndex == roIndexFirst {
        SearchGivesUp(ro, u, useAll, start, parentHost);
        return;
      }
      childHost := ro[roIndex].host;
    }
    SearchStops(ro, u, useAll, start, parentHost, roIndex, childHost, notSameHost);
  }
}

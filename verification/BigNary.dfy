/**
 GenerateBigNaryTree: a tree of a given size over a roster of any length, filled
 level by level, with a host chosen for every child by the circular search.
 */
module BigNary {
  import opened Wrappers
  import opened Arith
  import opened Geometric
  import opened Arena
  import opened HostSearch

  /** How many children the parent at place `i` of `len` gets when `rest` nodes are missing. */
  function Quota(n: nat, len: nat, i: nat, rest: nat): nat
    requires i < len
  {
    var children := rest * (i + 1) / len;
    if children > n then n else children
  }

  lemma {:induction false} QuotaAtMostRest(n: nat, len: nat, i: nat, rest: nat)
    requires i < len
    ensures Quota(n, len, i, rest) <= rest
  {
    var q := rest * (i + 1) / len;
    DivBounds(rest * (i + 1), len);
    assert rest * (i + 1) <= len * rest;
    CancelLeft(len, q, rest);
  }

  /** With enough nodes left to fill the level, every parent gets `n` children. */
  lemma {:induction false} QuotaFull(n: nat, len: nat, i: nat, rest: nat)
    requires i < len && rest >= (len - i) * n
    ensures Quota(n, len, i, rest) == n
  {
    var q := rest * (i + 1) / len;
    DivBounds(rest * (i + 1), len);
    FullProduct(n, len, i, rest);
    CancelLeft(len, n, q);
  }

  lemma {:induction false} Regroup(a: int, b: int, c: int)
    ensures a * (b * c) == c * (b * a)
  {
  }

  lemma {:induction false} Spread(len: nat, i: nat)
    requires i < len
    ensures (len - i) * (i + 1) == len + i * (len - i - 1)
  {
  }

  lemma {:induction false} FullProduct(n: nat, len: nat, i: nat, rest: nat)
    requires i < len && rest >= (len - i) * n
    ensures rest * (i + 1) >= len * n
  {
    MulMonotone(i + 1, (len - i) * n, rest);
    Regroup(i + 1, len - i, n);
    Spread(len, i);
    Distribute(n, len, i * (len - i - 1));
    MulMonotone(i, 0, len - i - 1);
    MulMonotone(n, 0, i * (len - i - 1));
  }

  /** On the last level the parents still to come can take the nodes still missing. */
  lemma {:induction false} QuotaLast(n: nat, len: nat, i: nat, rest: nat)
    requires i < len && rest <= (len - i) * n
    ensures rest - Quota(n, len, i, rest) <= (len - i - 1) * n
  {
    var q := rest * (i + 1) / len;
    if q >= n {
      assert (len - i - 1) * n == (len - i) * n - n;
    } else {
      DivBounds(rest * (i + 1), len);
      LastProduct(n, len, i, rest, q);
    }
  }

  lemma {:induction false} LastProduct(n: nat, len: nat, i: nat, rest: nat, q: nat)
    requires i < len && q < n
    requires len * q <= rest * (i + 1) < len * q + len
    ensures rest - q <= (len - i - 1) * n
  {
    var m := len - i - 1;
    RestBound(n, len, i, rest, q);
    Distribute(rest, i + 1, m);
    MulMonotone(m, rest, len * n);
    Distribute(len, rest - q, q);
    Distribute(len, m * n, 1);
    Rearrange(m, len, n, rest);
    CancelLeft(len, rest - q, m * n);
  }

  lemma {:induction false} Rearrange(m: nat, len: nat, n: nat, rest: nat)
    ensures m * (len * n) == len * (m * n) && rest * m == m * rest && rest * len == len * rest
  {
  }

  lemma {:induction false} RestBound(n: nat, len: nat, i: nat, rest: nat, q: nat)
    requires q < n && rest * (i + 1) < len * q + len
    ensures rest <= len * n
  {
    MulMonotone(len, q + 1, n);
    Distribute(len, q, 1);
    assert rest <= rest * (i + 1);
  }

  // ----- which entries the tree uses

  ghost predicate UsedIn(t: seq<Node>, j: nat, e: nat)
    requires j <= |t|
  {
    exists i :: 0 <= i < j && t[i].rosterIndex == e
  }

  /** For every roster entry, whether one of the first `j` nodes uses it. */
  ghost function UsedBefore(t: seq<Node>, j: nat, n: nat): seq<bool>
    requires j <= |t|
  {
    seq(n, e requires 0 <= e < n => UsedIn(t, j, e))
  }

  /** Node `j` was chosen by the search that starts after the entry of node `j - 1`. */
  ghost predicate PickedAt<P>(ro: seq<Server<P>>, t: seq<Node>, useAll: bool, j: nat)
    requires HasParents(t) && InRoster(t, |ro|) && 0 < j < |t|
  {
    IsPick(ro, UsedBefore(t, j, |ro|), useAll, Next(|ro|, t[j - 1].rosterIndex),
           ro[t[t[j].parent].rosterIndex].host, t[j].rosterIndex)
  }

  /** The root is entry 0 and every other node follows the search rule. */
  ghost predicate HostsPicked<P>(ro: seq<Server<P>>, t: seq<Node>, useAll: bool)
    requires HasParents(t)
  {
    && InRoster(t, |ro|)
    && t[0].rosterIndex == 0
    && (forall j: nat :: 0 < j < |t| ==> PickedAt(ro, t, useAll, j))
  }

  /** The variables of the generator agree with the tree built so far. */
  ghost predicate Built<P>(ro: seq<Server<P>>, t: seq<Node>, useAll: bool, used: seq<bool>, roIndex: nat) {
    && IsTree(t)
    && HostsPicked(ro, t, useAll)
    && used == UsedBefore(t, |t|, |ro|)
    && roIndex == Next(|ro|, t[|t| - 1].rosterIndex)
  }

  lemma {:induction false} UsedBeforeStable(t: seq<Node>, p: nat, r: nat, j: nat, n: nat)
    requires p < |t| && j <= |t|
    ensures UsedBefore(AddChild(t, p, r), j, n) == UsedBefore(t, j, n)
  {
    var u := AddChild(t, p, r);
    forall e: nat
      ensures UsedIn(u, j, e) <==> UsedIn(t, j, e)
    {
      if UsedIn(t, j, e) {
        var i :| 0 <= i < j && t[i].rosterIndex == e;
        assert u[i].rosterIndex == e;
      }
    }
  }

  lemma {:induction false} UsedBeforeGrows(t: seq<Node>, p: nat, r: nat, n: nat)
    requires p < |t| && r < n
    ensures UsedBefore(AddChild(t, p, r), |t| + 1, n) == UsedBefore(t, |t|, n)[r := true]
  {
    var u := AddChild(t, p, r);
    UsedBeforeStable(t, p, r, |t|, n);
    var grown, expected := UsedBefore(u, |t| + 1, n), UsedBefore(t, |t|, n)[r := true];
    assert |grown| == |expected| == n;
    forall e: nat | e < n
      ensures grown[e] == expected[e]
    {
      assert u[|t|].rosterIndex == r;
      assert UsedIn(u, |t| + 1, e) <==> UsedIn(u, |t|, e) || e == r;
      assert UsedBefore(u, |t|, n)[e] == UsedIn(u, |t|, e);
    }
  }

  lemma {:induction false} PickedStable<P>(ro: seq<Server<P>>, t: seq<Node>, useAll: bool, p: nat, k: nat, j: nat)
    requires HasParents(t) && InRoster(t, |ro|) && 0 < j < |t| && PickedAt(ro, t, useAll, j)
    requires p < |t| && HasParents(AddChild(t, p, k)) && InRoster(AddChild(t, p, k), |ro|)
    ensures PickedAt(ro, AddChild(t, p, k), useAll, j)
  {
    UsedBeforeStable(t, p, k, j, |ro|);
    var u := AddChild(t, p, k);
    assert u[j].parent == t[j].parent && u[t[j].parent].rosterIndex == t[t[j].parent].rosterIndex;
    assert u[j - 1].rosterIndex == t[j - 1].rosterIndex && u[j].rosterIndex == t[j].rosterIndex;
  }

  lemma {:induction false} PickedNew<P>(ro: seq<Server<P>>, t: seq<Node>, useAll: bool, p: nat, k: nat)
    requires HasParents(t) && InRoster(t, |ro|) && p < |t|
    requires HasParents(AddChild(t, p, k)) && InRoster(AddChild(t, p, k), |ro|)
    requires IsPick(ro, UsedBefore(t, |t|, |ro|), useAll, Next(|ro|, t[|t| - 1].rosterIndex),
                    ro[t[p].rosterIndex].host, k)
    ensures PickedAt(ro, AddChild(t, p, k), useAll, |t|)
  {
    UsedBeforeStable(t, p, k, |t|, |ro|);
    var u := AddChild(t, p, k);
    assert u[|t|].parent == p && u[p].rosterIndex == t[p].rosterIndex;
    assert u[|t| - 1].rosterIndex == t[|t| - 1].rosterIndex && u[|t|].rosterIndex == k;
  }

  lemma {:induction false} AddedInRoster(t: seq<Node>, p: nat, k: nat, n: nat)
    requires InRoster(t, n) && p < |t| && k < n
    ensures var u := AddChild(t, p, k);
            |u| == |t| + 1 && InRoster(u, n) && u[0].rosterIndex == t[0].rosterIndex
  {
  }

  lemma {:induction false} HostsPickedStep<P>(ro: seq<Server<P>>, t: seq<Node>, useAll: bool, p: nat, k: nat)
    requires HasParents(t) && HostsPicked(ro, t, useAll) && p < |t| && k < |ro|
    requires HasParents(AddChild(t, p, k))
    requires IsPick(ro, UsedBefore(t, |t|, |ro|), useAll, Next(|ro|, t[|t| - 1].rosterIndex),
                    ro[t[p].rosterIndex].host, k)
    ensures HostsPicked(ro, AddChild(t, p, k), useAll)
  {
    var u := AddChild(t, p, k);
    hide AddChild, IsPick, PickedAt, UsedBefore, HasParents, InRoster;
    AddedInRoster(t, p, k, |ro|);
    PickedNew(ro, t, useAll, p, k);
    forall j: nat | 0 < j < |u|
      ensures PickedAt(ro, u, useAll, j)
    {
      if j < |t| {
        PickedStable(ro, t, useAll, p, k, j);
      }
    }
  }

  lemma {:induction false} BuildStep<P>(ro: seq<Server<P>>, t: seq<Node>, useAll: bool, used: seq<bool>,
                                        roIndex: nat, p: nat, k: nat)
    requires Built(ro, t, useAll, used, roIndex) && p < |t|
    requires IsPick(ro, used, useAll, roIndex, ro[t[p].rosterIndex].host, k)
    ensures Built(ro, AddChild(t, p, k), useAll, used[k := true], Next(|ro|, k))
  {
    AddChildKeepsTree(t, p, k);
    HostsPickedStep(ro, t, useAll, p, k);
    UsedBeforeGrows(t, p, k, |ro|);
  }

  ghost function IndexSet(t: seq<Node>): (s: set<nat>)
    ensures |s| <= |t|
    ensures forall i :: 0 <= i < |t| ==> t[i].rosterIndex in s
  {
    if t == [] then {} else IndexSet(t[1..]) + {t[0].rosterIndex}
  }

  /** Fewer nodes than entries leave an entry unused. */
  lemma {:induction false} FreeEntry(t: seq<Node>, n: nat) returns (e: nat)
    requires |t| < n
    ensures e < n && !UsedBefore(t, |t|, n)[e]
  {
    var all := Interval(0, n);
    if all <= IndexSet(t) {
      SubsetSize(all, IndexSet(t));
    }
    e :| e in all && e !in IndexSet(t);
  }

  // ----- the shape

  /** What a level step keeps: level-filled, bounded arity, and leaves from `place` on. */
  ghost predicate Shape(t: seq<Node>, n: nat, place: nat) {
    && HasParents(t)
    && FilledByLevel(t, n)
    && ArityAtMost(t, n)
    && (forall i :: place <= i < |t| ==> t[i].children == [])
  }

  lemma {:induction false} LevelStep(t: seq<Node>, n: nat, k: nat, p: nat, r: nat)
    requires n >= 1 && HasParents(t) && FilledByLevel(t, n)
    requires OnLevel(n, k, p) && OnLevel(n, k + 1, |t|) && p < |t|
    ensures HasParents(AddChild(t, p, r)) && FilledByLevel(AddChild(t, p, r), n)
  {
    var u := AddChild(t, p, r);
    AddChildHasParents(t, p, r);
    assert OnLevel(n, Depth(t, p), p);
    GeoLevelUnique(n, k, Depth(t, p), p);
    assert |u| == |t| + 1;
    hide AddChild, HasParents, Depth;
    forall j: nat | j < |u|
      ensures OnLevel(n, Depth(u, j), j)
    {
      AddChildDepth(t, p, r, j);
      if j < |t| {
        assert OnLevel(n, Depth(t, j), j);
      }
    }
  }

  lemma {:induction false} ShapeStep(t: seq<Node>, n: nat, k: nat, p: nat, r: nat)
    requires n >= 1 && Shape(t, n, p + 1)
    requires OnLevel(n, k, p) && OnLevel(n, k + 1, |t|) && p < |t|
    requires |t[p].children| < n
    ensures Shape(AddChild(t, p, r), n, p + 1)
  {
    LevelStep(t, n, k, p, r);
    hide HasParents, FilledByLevel;
  }

  lemma {:induction false} BuiltFacts<P>(ro: seq<Server<P>>, t: seq<Node>, useAll: bool, used: seq<bool>, roIndex: nat)
    requires Built(ro, t, useAll, used, roIndex)
    ensures InRoster(t, |ro|) && roIndex < |ro| == |used|
    ensures |t| < |ro| ==> exists e: nat :: e < |used| && !used[e]
  {
    if |t| < |ro| {
      var e := FreeEntry(t, |ro|);
    }
  }

  lemma {:induction false} ShapeLeaf(t: seq<Node>, n: nat, p: nat)
    requires Shape(t, n, p) && p < |t|
    ensures t[p].children == [] && Shape(t, n, p + 1)
  {
  }

  // ----- which parent gets which children

  /** Nodes still missing when parent i of level k is served. */
  ghost function Missing(n: nat, nodes: nat, k: nat, i: nat): nat
    requires Geo(n, k + 1) <= nodes && i <= Pow(n, k)
  {
    if i == 0 then nodes - Geo(n, k + 1)
    else
      var rest := Missing(n, nodes, k, i - 1);
      var q := Quota(n, Pow(n, k), i - 1, rest);
      if q <= rest then rest - q else 0
  }

  /** The children of parent i of level k come next in the order of creation, as many as its quota. */
  ghost predicate Served(kids: seq<nat>, n: nat, nodes: nat, k: nat, i: nat)
    requires Geo(n, k + 1) <= nodes && i < Pow(n, k)
  {
    var rest := Missing(n, nodes, k, i);
    rest <= nodes && IsRun(kids, nodes - rest, Quota(n, Pow(n, k), i, rest))
  }

  /** What the children of node p on level k have to be: none once the tree has all its nodes. */
  ghost predicate HasItsChildren(t: seq<Node>, n: nat, nodes: nat, k: nat, p: nat)
    requires p < |t| && OnLevel(n, k, p)
  {
    if Geo(n, k + 1) < nodes then Served(t[p].children, n, nodes, k, p - Geo(n, k)) else t[p].children == []
  }

  /** The children of every node up to `place`. For all nodes, this determines the shape of the tree. */
  ghost predicate Distributed(t: seq<Node>, n: nat, nodes: nat, place: nat) {
    forall k: nat, p: nat :: p < place && p < |t| && OnLevel(n, k, p) ==> HasItsChildren(t, n, nodes, k, p)
  }

  /** The first `place` nodes have the same children in both trees. */
  ghost predicate SameChildren(t0: seq<Node>, t: seq<Node>, place: nat) {
    place <= |t0| <= |t| && forall q {:trigger t[q].children} :: 0 <= q < place ==> t[q].children == t0[q].children
  }

  /** The first `i` parents of level k have their children. */
  ghost predicate LevelServed(t: seq<Node>, n: nat, nodes: nat, k: nat, i: nat) {
    && Geo(n, k + 1) <= nodes && i <= Pow(n, k) && Geo(n, k) + i <= |t|
    && forall p {:trigger t[p].children} :: Geo(n, k) <= p < Geo(n, k) + i ==>
         Served(t[p].children, n, nodes, k, p - Geo(n, k))
  }

  lemma {:induction false} LevelEnd(n: nat, k: nat)
    ensures Geo(n, k + 1) == Geo(n, k) + Pow(n, k)
  {
  }

  lemma {:induction false} NoneServed(t: seq<Node>, n: nat, nodes: nat, k: nat)
    requires Geo(n, k + 1) <= nodes && Geo(n, k) <= |t|
    ensures LevelServed(t, n, nodes, k, 0) && Missing(n, nodes, k, 0) == nodes - Geo(n, k + 1)
  {
  }

  lemma {:induction false} LevelServedStep(t0: seq<Node>, t: seq<Node>, n: nat, nodes: nat, k: nat, i: nat)
    requires LevelServed(t0, n, nodes, k, i) && i < Pow(n, k) && |t0| <= nodes && Geo(n, k) + i < |t0| <= |t|
    requires SameChildren(t0, t, Geo(n, k) + i) && nodes - |t0| == Missing(n, nodes, k, i)
    requires IsRun(t[Geo(n, k) + i].children, |t0|, Quota(n, Pow(n, k), i, nodes - |t0|))
    requires |t| == |t0| + Quota(n, Pow(n, k), i, nodes - |t0|) <= nodes
    ensures LevelServed(t, n, nodes, k, i + 1) && nodes - |t| == Missing(n, nodes, k, i + 1)
  {
    hide Quota, Geo, Pow, IsRun;
    forall p | Geo(n, k) <= p < Geo(n, k) + i + 1
      ensures Served(t[p].children, n, nodes, k, p - Geo(n, k))
    {
      if p < Geo(n, k) + i {
        assert t[p].children == t0[p].children;
      }
    }
  }

  /** Appends `children` children to `parent`, as the innermost loop does. */
  method AddChildren<P>(ro: seq<Server<P>>, t0: seq<Node>, used: array<bool>, useAll: bool, roIndex0: nat,
                        n: nat, ghost k: nat, parent: nat, children: nat, newLevelNodes0: seq<nat>)
    returns (t: seq<Node>, roIndex: nat, newLevelNodes: seq<nat>)
    requires used.Length == |ro| && Built(ro, t0, useAll, used[..], roIndex0)
    requires n >= 1 && Shape(t0, n, parent) && parent < |t0| && OnLevel(n, k, parent)
    requires children <= n
    requires Geo(n, k + 1) <= |t0| && |t0| + children <= Geo(n, k + 2)
    requires useAll ==> |t0| + children <= |ro|
    requires IsRun(newLevelNodes0, Geo(n, k + 1), |t0| - Geo(n, k + 1))
    modifies used
    ensures Built(ro, t, useAll, used[..], roIndex) && |t| == |t0| + children
    ensures Shape(t, n, parent + 1)
    ensures IsRun(newLevelNodes, Geo(n, k + 1), |t| - Geo(n, k + 1))
    ensures IsRun(t[parent].children, |t0|, children)
    ensures SameChildren(t0, t, parent)
  {
    hide Built, Shape, IsPick;
    t, roIndex, newLevelNodes := t0, roIndex0, newLevelNodes0;
    ShapeLeaf(t, n, parent);
    BuiltFacts(ro, t, useAll, used[..], roIndex);
    var parentHost := ro[t[parent].rosterIndex].host;
    var c := 0;
    while c < children
      invariant 0 <= c <= children && |t| == |t0| + c
      invariant Built(ro, t, useAll, used[..], roIndex)
      invariant Shape(t, n, parent + 1) && IsRun(t[parent].children, |t0|, c)
      invariant SameChildren(t0, t, parent)
      invariant t[parent].rosterIndex == t0[parent].rosterIndex
      invariant IsRun(newLevelNodes, Geo(n, k + 1), |t| - Geo(n, k + 1))
    {
      BuiltFacts(ro, t, useAll, used[..], roIndex);
      var child := PickHost(ro, used, useAll, roIndex, parentHost);
      BuildStep(ro, t, useAll, used[..], roIndex, parent, child);
      ShapeStep(t, n, k, parent, child);
      newLevelNodes := newLevelNodes + [|t|];
      t := AddChild(t, parent, child);
      MarkUsed(used, child);
      roIndex := Next(|ro|, child);
      c := c + 1;
    }
  }

  method MarkUsed(used: array<bool>, e: nat)
    requires e < used.Length
    modifies used
    ensures used[..] == old(used[..])[e := true]
  {
    used[e] := true;
  }

  /**
   How far a level has come after `i` of `len` parents, with `rest` of `all`
   missing nodes left: every parent so far has n children, or the parents still
   to come can take all that is left.
   */
  predicate Progress(n: nat, len: nat, i: nat, all: nat, rest: nat)
    requires i <= len
  {
    && all - rest <= i * n
    && (all >= len * n ==> rest == all - i * n)
    && (all < len * n ==> rest <= (len - i) * n)
  }

  lemma {:induction false} OneParentMore(n: nat, len: nat, i: nat)
    requires i < len
    ensures (i + 1) * n == i * n + n && (len - i) * n + i * n == len * n
  {
  }

  lemma {:induction false} ProgressStep(n: nat, len: nat, i: nat, all: nat, rest: nat)
    requires i < len && rest <= all && Progress(n, len, i, all, rest)
    ensures Quota(n, len, i, rest) <= rest
    ensures Progress(n, len, i + 1, all, rest - Quota(n, len, i, rest))
  {
    assert Quota(n, len, i, rest) <= n;
    hide Quota;
    QuotaAtMostRest(n, len, i, rest);
    OneParentMore(n, len, i);
    if all >= len * n {
      QuotaFull(n, len, i, rest);
    } else {
      QuotaLast(n, len, i, rest);
    }
  }

  lemma {:induction false} ProgressEnd(n: nat, len: nat, all: nat, rest: nat)
    requires rest <= all && Progress(n, len, len, all, rest)
    ensures rest == if all >= n * len then all - n * len else 0
  {
  }

  /** One parent is served: its quota can be met and fits on the next level. */
  lemma {:induction false} PlacedAtMost(n: nat, len: nat, i: nat, all: nat, rest: nat)
    requires i <= len && Progress(n, len, i, all, rest)
    ensures all - rest <= n * len
  {
    MulMonotone(n, i, len);
  }

  lemma {:induction false} ServeParent(n: nat, k: nat, i: nat, all: nat, rest: nat)
    requires i < Pow(n, k) && rest <= all && Progress(n, Pow(n, k), i, all, rest)
    ensures var q := Quota(n, Pow(n, k), i, rest);
            && q <= rest && q <= n
            && Progress(n, Pow(n, k), i + 1, all, rest - q)
            && Geo(n, k + 1) + all - (rest - q) <= Geo(n, k + 2)
  {
    hide Progress;
    var len := Pow(n, k);
    var q := Quota(n, len, i, rest);
    assert q <= n && Geo(n, k + 2) == Geo(n, k + 1) + n * len;
    hide Pow, Geo, Quota;
    ProgressStep(n, len, i, all, rest);
    PlacedAtMost(n, len, i + 1, all, rest - q);
  }

  /** One level: the parents are the nodes on level `k`, from position Geo(n, k) on. */
  method FillLevel<P>(ro: seq<Server<P>>, t0: seq<Node>, used: array<bool>, useAll: bool, roIndex0: nat,
                      n: nat, nodes: nat, ghost k: nat, levelNodes: seq<nat>)
    returns (t: seq<Node>, roIndex: nat, newLevelNodes: seq<nat>)
    requires used.Length == |ro| && Built(ro, t0, useAll, used[..], roIndex0)
    requires n >= 1 && Geo(n, k + 1) == |t0| <= nodes && Shape(t0, n, Geo(n, k))
    requires IsRun(levelNodes, Geo(n, k), Pow(n, k))
    requires useAll ==> nodes == |ro|
    modifies used
    ensures Built(ro, t, useAll, used[..], roIndex)
    ensures |t0| <= |t| <= nodes && Shape(t, n, |t0|)
    ensures |t| == if nodes - |t0| >= Pow(n, k + 1) then Geo(n, k + 2) else nodes
    ensures IsRun(newLevelNodes, |t0|, |t| - |t0|)
    ensures SameChildren(t0, t, Geo(n, k)) && LevelServed(t, n, nodes, k, Pow(n, k))
  {
    hide Built, Shape, Quota, LevelServed;
    t, roIndex, newLevelNodes := t0, roIndex0, [];
    NoneServed(t, n, nodes, k);
    var i := 0;
    while i < |levelNodes|
      invariant 0 <= i <= |levelNodes| && |t0| <= |t| <= nodes
      invariant Built(ro, t, useAll, used[..], roIndex)
      invariant Progress(n, Pow(n, k), i, nodes - |t0|, nodes - |t|)
      invariant Shape(t, n, Geo(n, k) + i)
      invariant IsRun(newLevelNodes, |t0|, |t| - |t0|)
      invariant nodes - |t| == Missing(n, nodes, k, i)
      invariant SameChildren(t0, t, Geo(n, k)) && LevelServed(t, n, nodes, k, i)
    {
      var parent := levelNodes[i];
      var children := Quota(n, |levelNodes|, i, nodes - |t|);
      ServeParent(n, k, i, nodes - |t0|, nodes - |t|);
      ghost var before := t;
      t, roIndex, newLevelNodes :=
        AddChildren(ro, t, used, useAll, roIndex, n, k, parent, children, newLevelNodes);
      LevelServedStep(before, t, n, nodes, k, i);
      i := i + 1;
    }
    ProgressEnd(n, Pow(n, k), nodes - |t0|, nodes - |t|);
  }

  lemma {:induction false} DistributedStep(t0: seq<Node>, t: seq<Node>, n: nat, nodes: nat, k: nat)
    requires n >= 1 && Distributed(t0, n, nodes, Geo(n, k)) && Geo(n, k + 1) == |t0| <= |t| && |t0| < nodes
    requires SameChildren(t0, t, Geo(n, k)) && LevelServed(t, n, nodes, k, Pow(n, k))
    ensures Distributed(t, n, nodes, Geo(n, k + 1))
  {
    hide Served, Geo;
    assert Geo(n, k + 1) == Geo(n, k) + Pow(n, k) by {
      LevelEnd(n, k);
    }
    forall l: nat, p: nat | p < Geo(n, k + 1) && p < |t| && OnLevel(n, l, p)
      ensures HasItsChildren(t, n, nodes, l, p)
    {
      if p < Geo(n, k) {
        assert HasItsChildren(t0, n, nodes, l, p);
        assert t[p].children == t0[p].children;
      } else {
        assert OnLevel(n, k, p);
        GeoLevelUnique(n, l, k, p);
      }
    }
  }

  lemma {:induction false} LevelFrom(n: nat, k: nat, l: nat, p: nat)
    requires n >= 1 && Geo(n, k) <= p && OnLevel(n, l, p)
    ensures Geo(n, k + 1) <= Geo(n, l + 1)
  {
    if l < k {
      GeoMonotone(n, l + 1, k);
    }
    GeoMonotone(n, k + 1, l + 1);
  }

  lemma {:induction false} DistributedEnd(t: seq<Node>, n: nat, nodes: nat, k: nat)
    requires n >= 1 && Distributed(t, n, nodes, Geo(n, k)) && |t| == nodes <= Geo(n, k + 1)
    requires Shape(t, n, Geo(n, k))
    ensures Distributed(t, n, nodes, nodes)
  {
    hide Geo, HasParents, FilledByLevel, ArityAtMost, Served;
    forall l: nat, p: nat | p < nodes && OnLevel(n, l, p)
      ensures HasItsChildren(t, n, nodes, l, p)
    {
      if p >= Geo(n, k) {
        LevelFrom(n, k, l, p);
      }
    }
  }

  lemma {:induction false} RootIsBuilt<P>(ro: seq<Server<P>>, useAll: bool, used: seq<bool>, n: nat)
    requires ro != [] && used == seq(|ro|, e requires 0 <= e < |ro| => e == 0)
    ensures Built(ro, NewRoot(0), useAll, used, Next(|ro|, 0))
    ensures Shape(NewRoot(0), n, 0)
  {
    var t := NewRoot(0);
    assert forall e: nat :: UsedIn(t, 1, e) <==> e == 0 by {
      assert t[0].rosterIndex == 0;
    }
  }

  /** The tree between two levels: level k is next, or all nodes are there. */
  ghost predicate BeforeLevel(t: seq<Node>, n: nat, nodes: nat, k: nat, levelNodes: seq<nat>) {
    && Shape(t, n, Geo(n, k)) && Geo(n, k) <= |t| <= nodes && Distributed(t, n, nodes, Geo(n, k))
    && if |t| < nodes then |t| == Geo(n, k + 1) && IsRun(levelNodes, Geo(n, k), Pow(n, k)) else nodes <= Geo(n, k + 1)
  }

  lemma {:induction false} FirstLevel(n: nat, nodes: nat)
    requires nodes >= 2 && Shape(NewRoot(0), n, 0)
    ensures BeforeLevel(NewRoot(0), n, nodes, 0, [0])
  {
    assert Geo(n, 0) == 0 && Geo(n, 1) == 1 && Pow(n, 0) == 1;
    hide Shape;
  }

  lemma {:induction false} NextLevel(t0: seq<Node>, t: seq<Node>, n: nat, nodes: nat, k: nat,
                                     levelNodes0: seq<nat>, levelNodes: seq<nat>)
    requires n >= 1 && BeforeLevel(t0, n, nodes, k, levelNodes0) && |t0| < nodes
    requires |t0| <= |t| <= nodes && Shape(t, n, |t0|)
    requires |t| == if nodes - |t0| >= Pow(n, k + 1) then Geo(n, k + 2) else nodes
    requires IsRun(levelNodes, |t0|, |t| - |t0|)
    requires SameChildren(t0, t, Geo(n, k)) && LevelServed(t, n, nodes, k, Pow(n, k))
    ensures BeforeLevel(t, n, nodes, k + 1, levelNodes) && |t| > |t0|
  {
    hide Shape, Distributed, LevelServed, SameChildren, IsRun;
    PowPositive(n, k + 1);
    LevelEnd(n, k + 1);
    DistributedStep(t0, t, n, nodes, k);
  }

  /** Level after level, until the tree has all its nodes. */
  method FillLevels<P>(ro: seq<Server<P>>, root: seq<Node>, used: array<bool>, useAll: bool, roIndex0: nat,
                       n: nat, nodes: nat)
    returns (t: seq<Node>)
    requires used.Length == |ro| && Built(ro, root, useAll, used[..], roIndex0)
    requires n >= 1 && nodes >= 2 && root == NewRoot(0) && Shape(root, n, 0)
    requires useAll ==> nodes == |ro|
    modifies used
    ensures IsTree(t) && |t| == nodes && ArityAtMost(t, n) && FilledByLevel(t, n)
    ensures Distributed(t, n, nodes, nodes) && HostsPicked(ro, t, useAll)
  {
    FirstLevel(n, nodes);
    var roIndex, levelNodes: seq<nat> := roIndex0, [0];
    t := root;
    ghost var k: nat := 0;
    while |t| < nodes
      invariant Built(ro, t, useAll, used[..], roIndex) && BeforeLevel(t, n, nodes, k, levelNodes)
      decreases nodes - |t|
    {
      hide Built, Shape, Distributed, LevelServed, SameChildren, IsRun, Geo, Pow;
      ghost var before, levelNodes0 := t, levelNodes;
      t, roIndex, levelNodes := FillLevel(ro, t, used, useAll, roIndex, n, nodes, k, levelNodes);
      NextLevel(before, t, n, nodes, k, levelNodes0, levelNodes);
      k := k + 1;
    }
    hide Distributed, Geo;
    DistributedEnd(t, n, nodes, k);
  }

  /**
   Fails on the empty roster only. With n < 1 and more than one node requested the
   source does not return, so that case is the caller's duty to avoid.
   */
  method GenerateBigNaryTree<P>(ro: seq<Server<P>>, n: int, nodes: int) returns (r: Result<seq<Node>>)
    requires n >= 1 || nodes <= 1
    ensures r.Failure? <==> ro == []
    ensures r.Success? ==> IsTree(r.value) && |r.value| == if nodes < 1 then 1 else nodes
    ensures r.Success? && n >= 1 ==> ArityAtMost(r.value, n) && FilledByLevel(r.value, n)
    ensures r.Success? && n >= 1 && nodes >= 1 ==> Distributed(r.value, n, nodes, nodes)
    ensures r.Success? ==> HostsPicked(ro, r.value, |ro| == nodes)
  {
    if ro == [] {
      return Failure;
    }
    var used := new bool[|ro|](e => e == 0);
    var useAll := |ro| == nodes;
    RootIsBuilt(ro, useAll, used[..], if n >= 1 then n else 0);
    var t := NewRoot(0);
    var roIndex := Next(|ro|, 0);
    if nodes <= 1 {
      return Success(t);
    }
    t := FillLevels(ro, t, used, useAll, roIndex, n, nodes);
    return Success(t);
  }

  // ----- what the rule means for the roster

  /** If the roster has as many entries as the tree has nodes, each is used exactly once. */
  lemma {:induction false} UsesEveryEntryOnce<P>(ro: seq<Server<P>>, t: seq<Node>)
    requires HasParents(t) && HostsPicked(ro, t, true) && |t| == |ro|
    ensures UsesAllOnce(t, |ro|)
    ensures forall e: nat :: e < |ro| ==> UsedIn(t, |t|, e)
  {
    forall i, j | 0 <= i < j < |t|
      ensures t[i].rosterIndex != t[j].rosterIndex
    {
      assert PickedAt(ro, t, true, j);
      assert Eligible(UsedBefore(t, j, |ro|), true, t[j].rosterIndex);
      assert UsedBefore(t, j, |ro|)[t[j].rosterIndex] == UsedIn(t, j, t[j].rosterIndex);
    }
    forall e: nat | e < |ro|
      ensures UsedIn(t, |t|, e)
    {
      DistinctCover(t, |ro|, e);
    }
  }

  lemma {:induction false} IndexSetHas(t: seq<Node>, e: nat)
    ensures e in IndexSet(t) <==> exists i :: 0 <= i < |t| && t[i].rosterIndex == e
  {
    if t != [] {
      IndexSetHas(t[1..], e);
      if i :| 0 <= i < |t[1..]| && t[1..][i].rosterIndex == e {
        assert t[i + 1].rosterIndex == e;
      }
    }
  }

  lemma {:induction false} DistinctCount(t: seq<Node>)
    requires forall i, j :: 0 <= i < j < |t| ==> t[i].rosterIndex != t[j].rosterIndex
    ensures |IndexSet(t)| == |t|
    ensures forall e :: e in IndexSet(t) ==> exists i :: 0 <= i < |t| && t[i].rosterIndex == e
  {
    if t != [] {
      IndexSetHas(t[1..], t[0].rosterIndex);
      DistinctCount(t[1..]);
    }
    forall e | e in IndexSet(t) ensures exists i :: 0 <= i < |t| && t[i].rosterIndex == e {
      IndexSetHas(t, e);
    }
  }

  /** As many distinct entries as there are entries leave none out. */
  lemma {:induction false} DistinctCover(t: seq<Node>, n: nat, e: nat)
    requires forall i, j :: 0 <= i < j < |t| ==> t[i].rosterIndex != t[j].rosterIndex
    requires InRoster(t, n) && |t| == n && e < n
    ensures exists i :: 0 <= i < |t| && t[i].rosterIndex == e
  {
    hide IndexSet, Interval;
    DistinctCount(t);
    if e !in IndexSet(t) {
      var others := Interval(0, n) - {e};
      forall x | x in IndexSet(t) ensures x in others {
        var i :| 0 <= i < |t| && t[i].rosterIndex == x;
      }
      SubsetSize(IndexSet(t), others);
    }
  }

  /**
   A child shares its parent's host exactly if every entry it could have been
   given does; with `useAll` those are the entries no earlier node uses.
   */
  lemma {:induction false} SameHostAsParent<P>(ro: seq<Server<P>>, t: seq<Node>, useAll: bool, j: nat)
    requires HasParents(t) && HostsPicked(ro, t, useAll) && 0 < j < |t|
    ensures var parentHost := ro[t[t[j].parent].rosterIndex].host;
            ro[t[j].rosterIndex].host == parentHost <==>
            forall e: nat :: e < |ro| && (useAll ==> !UsedIn(t, j, e)) ==> ro[e].host == parentHost
  {
    assert PickedAt(ro, t, useAll, j);
    var used := UsedBefore(t, j, |ro|);
    SameHostOnlyIfForced(ro, used, useAll, Next(|ro|, t[j - 1].rosterIndex),
                         ro[t[t[j].parent].rosterIndex].host, t[j].rosterIndex);
    assert forall e: nat :: e < |ro| ==> (Eligible(used, useAll, e) <==> (useAll ==> !UsedIn(t, j, e)));
  }

  /** When every entry is on a host of its own, the nodes are the entries in the order of the roster. */
  lemma {:induction false} InRosterOrder<P>(ro: seq<Server<P>>, t: seq<Node>, useAll: bool, j: nat)
    requires HasParents(t) && HostsPicked(ro, t, useAll) && j < |t| <= |ro|
    requires forall a, b :: 0 <= a < b < |ro| ==> ro[a].host != ro[b].host
    ensures t[j].rosterIndex == j
  {
    if j > 0 {
      forall i: nat | i < j ensures t[i].rosterIndex == i {
        InRosterOrder(ro, t, useAll, i);
      }
      assert PickedAt(ro, t, useAll, j);
      var used, parentHost := UsedBefore(t, j, |ro|), ro[t[t[j].parent].rosterIndex].host;
      assert t[j].parent < j && ro[j].host != parentHost && !UsedIn(t, j, j);
      assert Preferred(ro, used, useAll, parentHost, j) && Distance(|ro|, j, j) == 0;
      hide HasParents, HostsPicked, UsedBefore;
    }
  }

  /** A size of 1 + n + ... + n^d gives the perfect tree of height d. */
  lemma {:induction false} PerfectTree(t: seq<Node>, n: nat, d: nat)
    requires HasParents(t) && n >= 1 && FilledByLevel(t, n) && |t| == Geo(n, d + 1)
    ensures HeightIs(t, d)
    ensures forall k: nat :: k <= d ==> |Level(t, k)| == Pow(n, k)
  {
    assert Depth(t, |t| - 1) == d by {
      PowPositive(n, d);
      assert OnLevel(n, Depth(t, |t| - 1), |t| - 1);
      GeoLevelUnique(n, Depth(t, |t| - 1), d, |t| - 1);
    }
    LastIsDeepest(t, n);
    hide HasParents, FilledByLevel, HeightIs, Level;
    forall k: nat | k <= d
      ensures |Level(t, k)| == Pow(n, k)
    {
      GeoMonotone(n, k + 1, d + 1);
      LevelIsInterval(t, n, k);
    }
  }

  // ----- the tree is the only one of its kind

  lemma {:induction false} SameRun(a: seq<nat>, b: seq<nat>, lo: nat, len: nat)
    requires IsRun(a, lo, len) && IsRun(b, lo, len)
    ensures a == b
  {
  }

  lemma {:induction false} ChildrenDetermined(t: seq<Node>, u: seq<Node>, n: nat, nodes: nat, k: nat, p: nat)
    requires |t| == |u| == nodes && p < nodes && OnLevel(n, k, p)
    requires Distributed(t, n, nodes, nodes) && Distributed(u, n, nodes, nodes)
    ensures t[p].children == u[p].children
  {
    assert HasItsChildren(t, n, nodes, k, p) && HasItsChildren(u, n, nodes, k, p);
    hide Distributed, IsRun, Quota, Missing, Geo;
    if Geo(n, k + 1) < nodes {
      var rest := Missing(n, nodes, k, p - Geo(n, k));
      SameRun(t[p].children, u[p].children, nodes - rest, Quota(n, Pow(n, k), p - Geo(n, k), rest));
    }
  }

  lemma {:induction false} ParentDetermined(t: seq<Node>, u: seq<Node>, j: nat)
    requires HasParents(t) && LinksBack(u) && |t| == |u| && 0 < j < |t|
    requires forall p {:trigger t[p].children} :: 0 <= p < |t| ==> t[p].children == u[p].children
    ensures t[j].parent == u[j].parent
  {
    var p := t[j].parent;
    assert t[p].children == u[p].children;
    var a :| 0 <= a < |t[p].children| && t[p].children[a] == j;
    assert u[u[p].children[a]].parent == p;
  }

  lemma {:induction false} EntryDetermined<P>(ro: seq<Server<P>>, t: seq<Node>, u: seq<Node>, useAll: bool, j: nat)
    requires HasParents(t) && HasParents(u) && |t| == |u| && j < |t|
    requires HostsPicked(ro, t, useAll) && HostsPicked(ro, u, useAll)
    requires forall i :: 0 < i < |t| ==> t[i].parent == u[i].parent
    ensures t[j].rosterIndex == u[j].rosterIndex
  {
    if j > 0 {
      forall i | 0 <= i < j ensures t[i].rosterIndex == u[i].rosterIndex {
        EntryDetermined(ro, t, u, useAll, i);
      }
      assert PickedAt(ro, t, useAll, j) && PickedAt(ro, u, useAll, j);
      assert UsedBefore(t, j, |ro|) == UsedBefore(u, j, |ro|);
      hide IsPick, HostsPicked;
      PickIsUnique(ro, UsedBefore(t, j, |ro|), useAll, Next(|ro|, t[j - 1].rosterIndex),
                   ro[t[t[j].parent].rosterIndex].host, t[j].rosterIndex, u[j].rosterIndex);
    }
  }

  /** What is stated of the generated tree leaves no choice: shape, links and entries are all determined. */
  lemma {:induction false} TreeIsDetermined<P>(ro: seq<Server<P>>, t: seq<Node>, u: seq<Node>, n: nat, nodes: nat)
    requires IsTree(t) && IsTree(u) && |t| == |u| == nodes && n >= 1
    requires FilledByLevel(t, n) && Distributed(t, n, nodes, nodes) && Distributed(u, n, nodes, nodes)
    requires HostsPicked(ro, t, |ro| == nodes) && HostsPicked(ro, u, |ro| == nodes)
    ensures t == u
  {
    forall p {:trigger t[p].children} | 0 <= p < nodes ensures t[p].children == u[p].children {
      assert OnLevel(n, Depth(t, p), p);
      ChildrenDetermined(t, u, n, nodes, Depth(t, p), p);
    }
    hide Distributed, HostsPicked, FilledByLevel;
    forall j | 0 < j < nodes ensures t[j].parent == u[j].parent {
      ParentDetermined(t, u, j);
    }
    forall j | 0 <= j < nodes ensures t[j] == u[j] {
      EntryDetermined(ro, t, u, |ro| == nodes, j);
    }
  }
}

/**
 Trees under construction. The nodes are kept in creation order and a node is
 named by its position; position 0 is the root. A server may appear at several
 nodes, so a node records its position in the roster.
 */
module Arena {
  import opened Arith
  import opened Geometric

  datatype Server<P> = Server(id: nat, host: string, public: P)

  datatype Node = Node(rosterIndex: nat, parent: int, children: seq<nat>)

  const NO_PARENT: int := -1

  function NewRoot(rosterIndex: nat): seq<Node> {
    [Node(rosterIndex, NO_PARENT, [])]
  }

  /** Creates a node below `p`, after the children `p` already has. */
  function AddChild(t: seq<Node>, p: nat, rosterIndex: nat): seq<Node>
    requires p < |t|
  {
    t[p := t[p].(children := t[p].children + [|t|])] + [Node(rosterIndex, p, [])]
  }

  predicate InRoster(t: seq<Node>, n: nat) {
    forall i :: 0 <= i < |t| ==> t[i].rosterIndex < n
  }

  /** Every one of the `n` roster entries is at exactly one node. */
  predicate UsesAllOnce(t: seq<Node>, n: nat) {
    && |t| == n
    && InRoster(t, n)
    && (forall i, j :: 0 <= i < j < |t| ==> t[i].rosterIndex != t[j].rosterIndex)
  }

  /** `len` consecutive positions from `lo` on. */
  predicate IsRun(s: seq<nat>, lo: nat, len: nat) {
    |s| == len && forall i :: 0 <= i < len ==> s[i] == lo + i
  }

  /** The position of the first server with this id, or -1. */
  function Search<P>(ro: seq<Server<P>>, id: nat): (r: int)
    ensures -1 <= r < |ro|
    ensures r >= 0 ==> ro[r].id == id && forall i :: 0 <= i < r ==> ro[i].id != id
    ensures r == -1 ==> forall i :: 0 <= i < |ro| ==> ro[i].id != id
  {
    if ro == [] then -1
    else if ro[0].id == id then 0
    else
      var rest := Search(ro[1..], id);
      if rest < 0 then -1 else rest + 1
  }

  /** Every node but the first has an earlier node as parent, which lists it. */
  ghost predicate HasParents(t: seq<Node>) {
    && |t| > 0
    && t[0].parent == NO_PARENT
    && (forall j {:trigger t[j].parent} :: 0 < j < |t| ==> 0 <= t[j].parent < j && j in t[t[j].parent].children)
  }

  /** Listed children point back at the node that lists them. */
  ghost predicate LinksBack(t: seq<Node>) {
    forall i, a {:trigger t[i].children[a]} :: 0 <= i < |t| && 0 <= a < |t[i].children| ==>
      i < t[i].children[a] < |t| && t[t[i].children[a]].parent == i
  }

  predicate Increasing(s: seq<nat>) {
    forall a, b :: 0 <= a < b < |s| ==> s[a] < s[b]
  }

  /** Parent and child links agree; children are listed once, in creation order. */
  ghost predicate IsTree(t: seq<Node>) {
    && HasParents(t)
    && LinksBack(t)
    && (forall i {:trigger t[i].children} :: 0 <= i < |t| ==> Increasing(t[i].children))
  }

  lemma {:induction false} AddChildHasParents(t: seq<Node>, p: nat, r: nat)
    requires HasParents(t) && p < |t|
    ensures HasParents(AddChild(t, p, r))
  {
    var u := AddChild(t, p, r);
    forall j | 0 < j < |u|
      ensures 0 <= u[j].parent < j && j in u[u[j].parent].children
    {
      if j < |t| {
        assert u[j].parent == t[j].parent;
        assert t[t[j].parent].children <= u[u[j].parent].children;
      } else {
        assert u[p].children[|t[p].children|] == |t|;
      }
    }
  }

  lemma {:induction false} AddChildKeepsTree(t: seq<Node>, p: nat, r: nat)
    requires IsTree(t) && p < |t|
    ensures IsTree(AddChild(t, p, r))
  {
    AddChildHasParents(t, p, r);
    var u := AddChild(t, p, r);
    forall i, a | 0 <= i < |u| && 0 <= a < |u[i].children|
      ensures i < u[i].children[a] < |u| && u[u[i].children[a]].parent == i
    {
      assert i < |t|;
      if a < |t[i].children| {
        assert u[i].children[a] == t[i].children[a];
        assert u[u[i].children[a]].parent == t[t[i].children[a]].parent;
      }
    }
    forall i | 0 <= i < |u|
      ensures Increasing(u[i].children)
    {
      if i == p {
        AppendIncreasing(t[p].children, |t|);
      }
    }
  }

  lemma {:induction false} AppendIncreasing(s: seq<nat>, x: nat)
    requires Increasing(s) && forall a :: 0 <= a < |s| ==> s[a] < x
    ensures Increasing(s + [x])
  {
  }

  ghost function Depth(t: seq<Node>, j: nat): nat
    requires HasParents(t) && j < |t|
  {
    if j == 0 then 0 else 1 + Depth(t, t[j].parent)
  }

  lemma {:induction false} AddChildDepth(t: seq<Node>, p: nat, r: nat, j: nat)
    requires HasParents(t) && p < |t| && j <= |t|
    requires HasParents(AddChild(t, p, r))
    ensures Depth(AddChild(t, p, r), j) == if j < |t| then Depth(t, j) else 1 + Depth(t, p)
    decreases j
  {
    if j == |t| {
      AddChildDepth(t, p, r, p);
    } else if j > 0 {
      AddChildDepth(t, p, r, t[j].parent);
    }
  }

  /** No node has more than `n` children. */
  predicate ArityAtMost(t: seq<Node>, n: int) {
    forall i :: 0 <= i < |t| ==> |t[i].children| <= n
  }

  /** Position `j` is on level `k` of the full n-ary tree in level order. */
  predicate OnLevel(n: nat, k: nat, j: nat) {
    Geo(n, k) <= j < Geo(n, k + 1)
  }

  /** Every node lies on the level of the full n-ary tree at its position. */
  ghost predicate FilledByLevel(t: seq<Node>, n: nat)
    requires HasParents(t)
  {
    forall j: nat :: j < |t| ==> OnLevel(n, Depth(t, j), j)
  }

  ghost function Level(t: seq<Node>, k: nat): set<nat>
    requires HasParents(t)
  {
    set j: nat | j < |t| && Depth(t, j) == k
  }

  ghost predicate HeightIs(t: seq<Node>, h: nat)
    requires HasParents(t)
  {
    && (forall j: nat :: j < |t| ==> Depth(t, j) <= h)
    && (exists j: nat :: j < |t| && Depth(t, j) == h)
  }

  ghost function Interval(lo: nat, hi: nat): (s: set<nat>)
    requires lo <= hi
    ensures forall j: nat :: j in s <==> lo <= j < hi
    ensures |s| == hi - lo
    decreases hi
  {
    if lo == hi then {} else Interval(lo, hi - 1) + {hi - 1}
  }

  lemma {:induction false} LaterIsDeeper(t: seq<Node>, n: nat, i: nat, j: nat)
    requires HasParents(t) && n >= 1 && FilledByLevel(t, n)
    requires i <= j < |t|
    ensures Depth(t, i) <= Depth(t, j)
  {
    assert OnLevel(n, Depth(t, i), i) && OnLevel(n, Depth(t, j), j);
    if Depth(t, i) > Depth(t, j) {
      GeoMonotone(n, Depth(t, j) + 1, Depth(t, i));
    }
  }

  /** The last node of a level-filled tree is a deepest one. */
  lemma {:induction false} LastIsDeepest(t: seq<Node>, n: nat)
    requires HasParents(t) && n >= 1 && FilledByLevel(t, n)
    ensures HeightIs(t, Depth(t, |t| - 1))
  {
    assert |t| > 0;
    hide HasParents, FilledByLevel, Depth;
    forall j: nat | j < |t|
      ensures Depth(t, j) <= Depth(t, |t| - 1)
    {
      LaterIsDeeper(t, n, j, |t| - 1);
    }
  }

  lemma {:induction false} LevelIsInterval(t: seq<Node>, n: nat, k: nat)
    requires HasParents(t) && n >= 1 && FilledByLevel(t, n) && Geo(n, k + 1) <= |t|
    ensures Level(t, k) == Interval(Geo(n, k), Geo(n, k + 1))
    ensures |Level(t, k)| == Pow(n, k)
  {
    forall j: nat
      ensures j in Level(t, k) <==> OnLevel(n, k, j)
    {
      if j in Level(t, k) {
        assert OnLevel(n, Depth(t, j), j);
      }
      if OnLevel(n, k, j) {
        assert OnLevel(n, Depth(t, j), j);
        GeoLevelUnique(n, k, Depth(t, j), j);
      }
    }
  }

  /** In a level-filled tree every level above the deepest one is full. */
  lemma {:induction false} LevelsAreFull(t: seq<Node>, n: nat, k: nat, h: nat)
    requires HasParents(t) && n >= 1 && FilledByLevel(t, n) && HeightIs(t, h) && k < h
    ensures |Level(t, k)| == Pow(n, k)
  {
    var d: nat :| d < |t| && Depth(t, d) == h;
    assert OnLevel(n, h, d);
    GeoMonotone(n, k + 1, h);
    LevelIsInterval(t, n, k);
  }

  /** The nodes whose parent is in `ps`. */
  ghost function ChildrenOf(t: seq<Node>, ps: set<nat>): set<nat> {
    set j: nat | 0 < j < |t| && t[j].parent in ps
  }

  ghost function Elements(s: seq<nat>): (e: set<nat>)
    ensures |e| <= |s|
    ensures forall a :: 0 <= a < |s| ==> s[a] in e
  {
    if s == [] then {} else Elements(s[1..]) + {s[0]}
  }

  lemma {:induction false} ChildIsListed(t: seq<Node>, p: nat, j: nat)
    requires HasParents(t) && 0 < j < |t| && t[j].parent == p
    ensures p < |t| && j in Elements(t[p].children)
  {
    assert j in t[t[j].parent].children;
  }

  lemma {:induction false} ChildrenSplit(t: seq<Node>, ps: set<nat>, p: nat)
    requires HasParents(t) && p < |t|
    ensures ChildrenOf(t, ps + {p}) <= ChildrenOf(t, ps) + Elements(t[p].children)
  {
    forall j: nat | j in ChildrenOf(t, ps + {p}) && t[j].parent == p
      ensures j in Elements(t[p].children)
    {
      ChildIsListed(t, p, j);
    }
  }

  lemma {:induction false} ChildrenStep(t: seq<Node>, ps: set<nat>, p: nat)
    requires HasParents(t) && p < |t|
    ensures |ChildrenOf(t, ps + {p})| <= |ChildrenOf(t, ps)| + |t[p].children|
  {
    ChildrenSplit(t, ps, p);
    SubsetSize(ChildrenOf(t, ps + {p}), ChildrenOf(t, ps) + Elements(t[p].children));
  }

  lemma {:induction false} ChildrenBound(t: seq<Node>, n: nat, ps: set<nat>)
    requires HasParents(t) && ArityAtMost(t, n)
    requires ps <= Interval(0, |t|)
    ensures |ChildrenOf(t, ps)| <= n * |ps|
  {
    if ps == {} {
      assert ChildrenOf(t, ps) == {};
    } else {
      var p :| p in ps;
      var rest := ps - {p};
      ChildrenBound(t, n, rest);
      ChildrenStep(t, rest, p);
      assert rest + {p} == ps;
      Distribute(n, |rest|, 1);
    }
  }

  lemma {:induction false} SubsetSize(a: set<nat>, b: set<nat>)
    requires a <= b
    ensures |a| <= |b|
  {
    assert b == a + (b - a);
  }

  lemma {:induction false} LevelIsChildren(t: seq<Node>, k: nat)
    requires HasParents(t) && k > 0
    ensures Level(t, k) == ChildrenOf(t, Level(t, k - 1)) && Level(t, k - 1) <= Interval(0, |t|)
  {
  }

  lemma {:induction false} NextPower(n: nat, level: nat, next: nat, p: nat)
    requires level <= p && next <= n * level
    ensures next <= n * p
  {
    MulMonotone(n, level, p);
  }

  lemma {:induction false} LevelZero(t: seq<Node>)
    requires HasParents(t)
    ensures Level(t, 0) == {0}
  {
  }

  lemma {:induction false} LevelBound(t: seq<Node>, n: nat, k: nat)
    requires HasParents(t) && ArityAtMost(t, n)
    ensures |Level(t, k)| <= Pow(n, k)
  {
    hide *;
    PowStep(n, k);
    if k == 0 {
      LevelZero(t);
    } else {
      LevelBound(t, n, k - 1);
      LevelIsChildren(t, k);
      ChildrenBound(t, n, Level(t, k - 1));
      NextPower(n, |Level(t, k - 1)|, |Level(t, k)|, Pow(n, k - 1));
    }
  }

  ghost function Above(t: seq<Node>, k: nat): set<nat>
    requires HasParents(t)
  {
    set j: nat | j < |t| && Depth(t, j) < k
  }

  lemma {:induction false} AboveSplit(t: seq<Node>, k: nat)
    requires HasParents(t)
    ensures Above(t, k + 1) == Above(t, k) + Level(t, k)
  {
    hide HasParents, Depth;
  }

  lemma {:induction false} NothingAbove(t: seq<Node>)
    requires HasParents(t)
    ensures Above(t, 0) == {}
  {
    hide HasParents;
  }

  lemma {:induction false} AboveBound(t: seq<Node>, n: nat, k: nat)
    requires HasParents(t) && ArityAtMost(t, n)
    ensures |Above(t, k)| <= Geo(n, k)
  {
    hide HasParents, ArityAtMost, Above, Level, Pow;
    if k == 0 {
      NothingAbove(t);
    } else {
      AboveBound(t, n, k - 1);
      LevelBound(t, n, k - 1);
      AboveSplit(t, k - 1);
    }
  }

  /** A tree of arity n and height h has at most 1 + n + ... + n^h nodes. */
  lemma {:induction false} HeightBoundsSize(t: seq<Node>, n: nat, h: nat)
    requires HasParents(t) && ArityAtMost(t, n) && HeightIs(t, h)
    ensures |t| <= Geo(n, h + 1)
  {
    AboveBound(t, n, h + 1);
    assert Above(t, h + 1) == Interval(0, |t|);
  }

  /** Among the trees of the same size and arity, a level-filled one is lowest. */
  lemma {:induction false} LevelFilledIsLowest(t: seq<Node>, u: seq<Node>, n: nat, h: nat, g: nat)
    requires HasParents(t) && n >= 1 && FilledByLevel(t, n) && HeightIs(t, h)
    requires HasParents(u) && ArityAtMost(u, n) && HeightIs(u, g) && |u| == |t|
    ensures h <= g
  {
    HeightBoundsSize(u, n, g);
    var d: nat :| d < |t| && Depth(t, d) == h;
    assert OnLevel(n, h, d);
    if g < h {
      GeoMonotone(n, g + 1, h);
    }
  }

  // ----- SubtreeCount counts all descendants

  function SizeSum(t: seq<Node>, kids: seq<nat>, i: nat): nat
    requires LinksBack(t)
    requires forall a :: 0 <= a < |kids| ==> i < kids[a] < |t|
    decreases |t| - i, 0, |kids|
  {
    if kids == [] then 0 else SubtreeSize(t, kids[0]) + SizeSum(t, kids[1..], i)
  }

  function SubtreeSize(t: seq<Node>, i: nat): nat
    requires LinksBack(t) && i < |t|
    decreases |t| - i, 1
  {
    1 + SizeSum(t, t[i].children, i)
  }

  /** The number of nodes below `i`, at any depth. */
  function SubtreeCount(t: seq<Node>, i: nat): nat
    requires LinksBack(t) && i < |t|
  {
    SubtreeSize(t, i) - 1
  }

  lemma {:induction false} SizeOfLeaves(t: seq<Node>, kids: seq<nat>, i: nat)
    requires LinksBack(t)
    requires forall a :: 0 <= a < |kids| ==> i < kids[a] < |t| && t[kids[a]].children == []
    ensures SizeSum(t, kids, i) == |kids|
  {
    if kids != [] {
      SizeOfLeaves(t, kids[1..], i);
      assert SubtreeSize(t, kids[0]) == 1;
    }
  }

  /** While the children of `i` are leaves, the count of all descendants is the count of children. */
  lemma {:induction false} CountIsArity(t: seq<Node>, i: nat)
    requires LinksBack(t) && i < |t|
    requires forall j :: i < j < |t| ==> t[j].children == []
    ensures SubtreeCount(t, i) == |t[i].children|
  {
    SizeOfLeaves(t, t[i].children, i);
  }
}

/**
 From a generated tree to its keys: Visit reaches every node exactly once, so the
 aggregate at the root is the aggregate of the roster whenever every roster entry
 is used once.
 */
module Generated {
  import opened Arith
  import opened Wrappers
  import opened Arena
  import opened Keys
  import opened TreeNodes
  import opened Marshal
  import Nary

  /** `i` is `x` or one of its ancestors. */
  ghost predicate IsAncestor(t: seq<Node>, i: nat, x: nat)
    requires HasParents(t) && x < |t|
  {
    x == i || (x > i && IsAncestor(t, i, t[x].parent))
  }

  /** The ancestor of `x`, or `x` itself, whose parent is `i`. */
  ghost function Branch(t: seq<Node>, i: nat, x: nat): nat
    requires HasParents(t) && i < x < |t| && IsAncestor(t, i, x)
  {
    assert IsAncestor(t, i, t[x].parent);
    if t[x].parent == i then x else Branch(t, i, t[x].parent)
  }

  lemma {:induction false} BranchIsChild(t: seq<Node>, i: nat, x: nat, c: nat)
    requires IsTree(t) && i < c < |t| && t[c].parent == i && x < |t|
    ensures IsAncestor(t, c, x) <==> x > i && IsAncestor(t, i, x) && Branch(t, i, x) == c
    decreases x
  {
    if x > c {
      BranchIsChild(t, i, t[x].parent, c);
    }
    if x > i && IsAncestor(t, i, x) {
      BranchBelow(t, i, x);
    }
    assert x == c ==> IsAncestor(t, i, t[x].parent);
  }

  lemma {:induction false} BranchBelow(t: seq<Node>, i: nat, x: nat)
    requires IsTree(t) && i < x < |t| && IsAncestor(t, i, x)
    ensures i < Branch(t, i, x) <= x && t[Branch(t, i, x)].parent == i
    decreases x
  {
    if t[x].parent != i {
      BranchBelow(t, i, t[x].parent);
    }
  }

  lemma {:induction false} RootIsAbove(t: seq<Node>, x: nat)
    requires HasParents(t) && x < |t|
    ensures IsAncestor(t, 0, x)
    decreases x
  {
    if x > 0 {
      RootIsAbove(t, t[x].parent);
    }
  }

  /** Positions in the order of Visit. */
  function Order(t: seq<Node>, i: nat): seq<nat>
    requires LinksBack(t) && i < |t|
    decreases |t| - i, 1
  {
    [i] + OrderAll(t, t[i].children, i)
  }

  function OrderAll(t: seq<Node>, kids: seq<nat>, i: nat): seq<nat>
    requires LinksBack(t) && Below(t, kids, i)
    decreases |t| - i, 0, |kids|
  {
    if kids == [] then [] else Order(t, kids[0]) + OrderAll(t, kids[1..], i)
  }

  predicate Below(t: seq<Node>, kids: seq<nat>, i: nat) {
    forall a :: 0 <= a < |kids| ==> i < kids[a] < |t|
  }

  predicate Kids(t: seq<Node>, kids: seq<nat>, i: nat) {
    && Increasing(kids)
    && forall a :: 0 <= a < |kids| ==> i < kids[a] < |t| && t[kids[a]].parent == i
  }

  /** Visit from `i` reaches `x` once if `i` is above `x`, and not at all otherwise. */
  lemma {:induction false} OrderOnce(t: seq<Node>, i: nat, x: nat)
    requires IsTree(t) && i < |t| && x < |t|
    ensures multiset(Order(t, i))[x] == if IsAncestor(t, i, x) then 1 else 0
    decreases |t| - i, 1
  {
    OrderAllOnce(t, t[i].children, i, x);
    assert Order(t, i) == [i] + OrderAll(t, t[i].children, i);
    if x > i && IsAncestor(t, i, x) {
      BranchBelow(t, i, x);
    }
  }

  lemma {:induction false} KidsSplit(t: seq<Node>, kids: seq<nat>, i: nat)
    requires Kids(t, kids, i) && kids != []
    ensures Kids(t, kids[1..], i) && Below(t, kids, i) && Below(t, kids[1..], i)
    ensures kids[0] !in kids[1..] && (forall y :: y in kids <==> y == kids[0] || y in kids[1..])
  {
    assert kids == [kids[0]] + kids[1..];
  }

  lemma {:induction false} OrderAllOnce(t: seq<Node>, kids: seq<nat>, i: nat, x: nat)
    requires IsTree(t) && i < |t| && x < |t| && Kids(t, kids, i)
    ensures multiset(OrderAll(t, kids, i))[x] ==
            if x > i && IsAncestor(t, i, x) && Branch(t, i, x) in kids then 1 else 0
    decreases |t| - i, 0, |kids|
  {
    if kids != [] {
      assert LinksBack(t) && HasParents(t);
      hide IsTree, LinksBack, HasParents, IsAncestor, Branch;
      KidsSplit(t, kids, i);
      assert OrderAll(t, kids, i) == Order(t, kids[0]) + OrderAll(t, kids[1..], i);
      assert i < kids[0] < |t| && t[kids[0]].parent == i;
      hide Order, OrderAll, Kids, Below;
      OrderOnce(t, kids[0], x);
      OrderAllOnce(t, kids[1..], i, x);
      BranchIsChild(t, i, x, kids[0]);
    }
  }

  function Upto(n: nat): seq<nat> {
    seq(n, i requires 0 <= i < n => i)
  }

  lemma {:induction false} UptoOnce(n: nat, x: nat)
    ensures multiset(Upto(n))[x] == if x < n then 1 else 0
  {
    if n > 0 {
      UptoOnce(n - 1, x);
      assert Upto(n) == Upto(n - 1) + [n - 1];
    }
  }

  lemma {:induction false} OrderWithin(t: seq<Node>, i: nat)
    requires LinksBack(t) && i < |t|
    ensures Within(Order(t, i), |t|)
    decreases |t| - i, 1
  {
    OrderAllWithin(t, t[i].children, i);
  }

  lemma {:induction false} OrderAllWithin(t: seq<Node>, kids: seq<nat>, i: nat)
    requires LinksBack(t) && Below(t, kids, i)
    ensures Within(OrderAll(t, kids, i), |t|)
    decreases |t| - i, 0, |kids|
  {
    if kids != [] {
      OrderWithin(t, kids[0]);
      OrderAllWithin(t, kids[1..], i);
    }
  }

  /** Visit from the root is a reordering of all the nodes. */
  lemma {:induction false} VisitReachesAll(t: seq<Node>)
    requires IsTree(t)
    ensures multiset(Order(t, 0)) == multiset(Upto(|t|))
  {
    OrderWithin(t, 0);
    forall x: nat
      ensures multiset(Order(t, 0))[x] == multiset(Upto(|t|))[x]
    {
      UptoOnce(|t|, x);
      if x < |t| {
        OrderOnce(t, 0, x);
        RootIsAbove(t, x);
      } else if x in Order(t, 0) {
        assert false;
      }
    }
  }

  // ----- the tree as a value

  /** The subtree at `i`; node ids are a function of the public key. */
  function ToNode<P>(ro: seq<Server<P>>, t: seq<Node>, idOf: P -> nat, i: nat, parent: Option<nat>): TreeNode<P>
    requires LinksBack(t) && i < |t| && InRoster(t, |ro|)
    decreases |t| - i, 1
  {
    var server := ro[t[i].rosterIndex];
    var id := idOf(server.public);
    TreeNode(id, server, t[i].rosterIndex, parent, ToNodes(ro, t, idOf, t[i].children, i, Some(id)), None)
  }

  function ToNodes<P>(ro: seq<Server<P>>, t: seq<Node>, idOf: P -> nat, kids: seq<nat>, i: nat, parent: Option<nat>)
    : seq<TreeNode<P>>
    requires LinksBack(t) && Below(t, kids, i) && InRoster(t, |ro|)
    decreases |t| - i, 0, |kids|
  {
    if kids == [] then []
    else [ToNode(ro, t, idOf, kids[0], parent)] + ToNodes(ro, t, idOf, kids[1..], i, parent)
  }

  /** Roster entries of the nodes, by position. */
  function Entries(t: seq<Node>): seq<nat> {
    seq(|t|, j requires 0 <= j < |t| => t[j].rosterIndex)
  }

  lemma {:induction false} VisitKeys<P>(ro: seq<Server<P>>, t: seq<Node>, idOf: P -> nat, i: nat, parent: Option<nat>)
    requires LinksBack(t) && i < |t| && InRoster(t, |ro|)
    ensures Within(Order(t, i), |t|)
    ensures Publics(Visit(ToNode(ro, t, idOf, i, parent))) == Select(Select(PublicsOf(ro), Entries(t)), Order(t, i))
    decreases |t| - i, 1
  {
    var keys := Select(PublicsOf(ro), Entries(t));
    var tn := ToNode(ro, t, idOf, i, parent);
    var kids := t[i].children;
    assert Below(t, kids, i) && tn.children == ToNodes(ro, t, idOf, kids, i, Some(tn.id));
    assert Order(t, i) == [i] + OrderAll(t, kids, i) && Visit(tn) == [tn] + VisitAll(tn.children);
    assert Publics([tn]) == [keys[i]] == Select(keys, [i]);
    hide Visit, VisitAll, ToNode, ToNodes, Order, OrderAll, Publics, LinksBack, InRoster;
    VisitAllKeys(ro, t, idOf, kids, i, Some(tn.id));
    PublicsAppend([tn], VisitAll(tn.children));
    SelectAppend(keys, [i], OrderAll(t, kids, i));
  }

  lemma {:induction false} SelectAppend<T>(xs: seq<T>, a: seq<nat>, b: seq<nat>)
    requires Within(a, |xs|) && Within(b, |xs|)
    ensures Within(a + b, |xs|) && Select(xs, a + b) == Select(xs, a) + Select(xs, b)
  {
  }

  lemma {:induction false} VisitAllKeys<P>(ro: seq<Server<P>>, t: seq<Node>, idOf: P -> nat, kids: seq<nat>, i: nat,
                                           parent: Option<nat>)
    requires LinksBack(t) && Below(t, kids, i) && InRoster(t, |ro|)
    ensures Within(OrderAll(t, kids, i), |t|)
    ensures Publics(VisitAll(ToNodes(ro, t, idOf, kids, i, parent))) ==
            Select(Select(PublicsOf(ro), Entries(t)), OrderAll(t, kids, i))
    decreases |t| - i, 0, |kids|
  {
    if kids != [] {
      var keys := Select(PublicsOf(ro), Entries(t));
      var all := ToNodes(ro, t, idOf, kids, i, parent);
      assert all[0] == ToNode(ro, t, idOf, kids[0], parent) && all[1..] == ToNodes(ro, t, idOf, kids[1..], i, parent);
      assert VisitAll(all) == Visit(all[0]) + VisitAll(all[1..]);
      assert OrderAll(t, kids, i) == Order(t, kids[0]) + OrderAll(t, kids[1..], i);
      hide Visit, VisitAll, ToNode, ToNodes, Order, OrderAll, Publics, LinksBack, InRoster;
      VisitKeys(ro, t, idOf, kids[0], parent);
      VisitAllKeys(ro, t, idOf, kids[1..], i, parent);
      PublicsAppend(Visit(all[0]), VisitAll(all[1..]));
      SelectAppend(keys, Order(t, kids[0]), OrderAll(t, kids[1..], i));
    }
  }

  // ----- the aggregate at the root

  lemma {:induction false} EntriesArePermutation(t: seq<Node>, n: nat)
    requires UsesAllOnce(t, n)
    ensures multiset(Entries(t)) == multiset(Upto(n))
  {
    forall i | 0 <= i < n
      ensures Entries(t)[i] in Upto(n)
    {
      assert Upto(n)[t[i].rosterIndex] == t[i].rosterIndex;
    }
    DistinctFills(Entries(t), Upto(n));
  }

  lemma {:induction false} SumInAnyOrder<P(!new)>(g: Group<P>, keys: seq<P>, order: seq<nat>)
    requires Commutative(g) && Within(order, |keys|) && multiset(order) == multiset(Upto(|keys|))
    ensures Sum(g, Select(keys, order)) == Sum(g, keys)
  {
    SumPermuted(g, keys, order, Upto(|keys|));
    assert Select(keys, Upto(|keys|)) == keys;
  }

  /** A tree that uses every roster entry once has the roster's aggregate key at its root. */
  lemma {:induction false} RootAggregate<P(!new)>(g: Group<P>, ro: seq<Server<P>>, t: seq<Node>, idOf: P -> nat)
    requires Commutative(g) && IsTree(t) && UsesAllOnce(t, |ro|)
    ensures ComputeAggregates(g, ToNode(ro, t, idOf, 0, None)).aggregate == Some(Sum(g, PublicsOf(ro)))
  {
    assert LinksBack(t) && 0 < |t| && InRoster(t, |ro|) && |t| == |ro|;
    var keys := PublicsOf(ro);
    assert |keys| == |ro| && Within(Entries(t), |keys|) && |Select(keys, Entries(t))| == |t|;
    hide *;
    AggregateIs(g, ToNode(ro, t, idOf, 0, None));
    VisitKeys(ro, t, idOf, 0, None);
    VisitReachesAll(t);
    EntriesArePermutation(t, |ro|);
    SumInAnyOrder(g, Select(keys, Entries(t)), Order(t, 0));
    SumInAnyOrder(g, keys, Entries(t));
  }

  /** The trees of GenerateNaryTreeWithRoot use every entry once. */
  lemma {:induction false} LayoutUsesAllOnce(t: seq<Node>, n: int, rootIndex: nat, len: nat)
    requires rootIndex < len == |t| && Nary.Layout(t, n, rootIndex, len)
    ensures UsesAllOnce(t, len)
  {
    Nary.LayoutMeans(t, n, rootIndex, len);
    hide Nary.Layout;
  }

  /** Visit counts the nodes of a subtree, and from the root all nodes. */
  lemma {:induction false} OrderLength(t: seq<Node>, i: nat)
    requires LinksBack(t) && i < |t|
    ensures |Order(t, i)| == SubtreeSize(t, i)
    decreases |t| - i, 1
  {
    OrderAllLength(t, t[i].children, i);
  }

  lemma {:induction false} OrderAllLength(t: seq<Node>, kids: seq<nat>, i: nat)
    requires LinksBack(t) && Below(t, kids, i)
    ensures |OrderAll(t, kids, i)| == SizeSum(t, kids, i)
    decreases |t| - i, 0, |kids|
  {
    if kids != [] {
      OrderLength(t, kids[0]);
      OrderAllLength(t, kids[1..], i);
    }
  }

  lemma {:induction false} RootSize(t: seq<Node>)
    requires IsTree(t)
    ensures SubtreeSize(t, 0) == |t|
  {
    OrderLength(t, 0);
    VisitReachesAll(t);
    assert |multiset(Order(t, 0))| == |multiset(Upto(|t|))|;
  }

  /** Generated trees have right indices and parent links, so they survive the round trip. */
  lemma {:induction false} GeneratedIsIndexed<P>(ro: seq<Server<P>>, t: seq<Node>, idOf: P -> nat, i: nat,
                                                 parent: Option<nat>)
    requires LinksBack(t) && i < |t| && InRoster(t, |ro|)
    ensures Indexed(ToNode(ro, t, idOf, i, parent), parent, ro)
    decreases |t| - i, 1
  {
    GeneratedAllIndexed(ro, t, idOf, t[i].children, i, Some(idOf(ro[t[i].rosterIndex].public)));
  }

  lemma {:induction false} GeneratedAllIndexed<P>(ro: seq<Server<P>>, t: seq<Node>, idOf: P -> nat, kids: seq<nat>,
                                                  i: nat, parent: Option<nat>)
    requires LinksBack(t) && Below(t, kids, i) && InRoster(t, |ro|)
    ensures IndexedAll(ToNodes(ro, t, idOf, kids, i, parent), parent, ro)
    decreases |t| - i, 0, |kids|
  {
    if kids != [] {
      GeneratedIsIndexed(ro, t, idOf, kids[0], parent);
      GeneratedAllIndexed(ro, t, idOf, kids[1..], i, parent);
      assert ToNodes(ro, t, idOf, kids, i, parent)[1..] == ToNodes(ro, t, idOf, kids[1..], i, parent);
    }
  }
}
